/** `GET /crawls/{id}/pages`: the cursor it returns, and why following it loses nothing while a crawl runs. */
module Paging {
  import opened Options
  import opened Tables
  import opened Reporting
  import opened Repository
  import opened Leases
  import opened LeaseInvariants
  import opened LeaseSteps
  import opened LeasePages
  import opened LeaseClaims
  import opened LeaseTheorems

  /** `None` stands for the 404 of an unknown crawl; otherwise the page and the cursor, if the page is full. */
  method ListCrawlPages(repo: CrawlRepository, id: CrawlId, after: nat, limit: nat)
    returns (found: Option<(seq<PageRow>, Option<nat>)>)
    requires limit >= 1 && Numbered(repo.View())
    ensures found.None? <==> id !in repo.crawls
    ensures found.Some? ==>
              var (items, nextAfter) := found.value;
              && IsPageListing(repo.View(), id, after, limit, items)
              && nextAfter == Cursor(items, limit)
  {
    if id !in repo.crawls {
      return None;
    }
    var items := repo.ListPages(id, after, limit);
    return Some((items, if |items| == limit then Some(items[|items| - 1].number) else None));
  }

  function Cursor(items: seq<PageRow>, limit: nat): Option<nat>
    requires limit >= 1
  {
    if |items| == limit then Some(LastSeen(items)) else None
  }

  /** The number of the last row, from which a client resumes. */
  function LastSeen(rows: seq<PageRow>): nat {
    if |rows| == 0 then 0 else rows[|rows| - 1].number
  }

  /** On a table that holds rows 1 to `k`, a listing is the next rows in order: a full page, or all that are left. */
  lemma ListingOfPrefix(db: Db, id: CrawlId, pages: seq<PageRow>, k: nat, after: nat, limit: nat, rows: seq<PageRow>)
    requires NumberedFromOne(pages) && StoresPrefix(db.pages, id, pages, k) && after <= k
    requires IsPageListing(db, id, after, limit, rows)
    ensures |rows| == if limit <= k - after then limit else k - after
    ensures rows == pages[after..after + |rows|]
  {
    forall i | 0 <= i < |rows| ensures rows[i].number == after + i + 1 {
      ListedInTurn(db, id, pages, k, after, limit, rows, i);
    }
    forall s: nat | (id, s) in db.pages && after < s ensures |rows| == limit || s <= after + |rows| {
      assert |rows| < limit ==> s in Numbers(rows);
    }
    assert k > after ==> (id, k) in db.pages;
    assert |rows| > 0 ==> (id, rows[|rows| - 1].number) in db.pages;
  }

  lemma {:induction false} ListedInTurn(db: Db, id: CrawlId, pages: seq<PageRow>, k: nat, after: nat, limit: nat,
                                        rows: seq<PageRow>, i: nat)
    requires NumberedFromOne(pages) && StoresPrefix(db.pages, id, pages, k)
    requires IsPageListing(db, id, after, limit, rows) && i < |rows|
    ensures rows[i].number == after + i + 1
    decreases i
  {
    forall j: nat | j < i ensures rows[j].number == after + j + 1 {
      ListedInTurn(db, id, pages, k, after, limit, rows, j);
    }
    var s := after + i + 1;
    assert i > 0 ==> rows[i - 1].number < rows[i].number;
    assert (id, rows[i].number) in db.pages && (id, s) in db.pages;
    assert s in Numbers(rows);
    var j :| 0 <= j < |rows| && rows[j].number == s;
  }

  // Across the steps of a run.

  /** No step takes claims back, and within one lease nothing reported or stored is taken back either. */
  ghost predicate Grows(sys: System, sys': System, id: CrawlId) {
    id in sys.logs ==>
      && id in sys'.logs && |sys.logs[id].leases| <= |sys'.logs[id].leases|
      && (|sys.logs[id].leases| == |sys'.logs[id].leases| ==>
            Last(sys.logs[id]) <= Last(sys'.logs[id]) && sys.logs[id].stored <= sys'.logs[id].stored)
  }

  lemma SessionStepGrows(sys: System, w: WorkerId, s: Session, event: Event, id: CrawlId)
    ensures Grows(sys, OnSession(sys, w, s, event, false), id)
  {
  }

  lemma StepGrows(sys: System, event: Event, id: CrawlId)
    requires id in sys.logs ==> id in sys.db.crawls
    ensures Grows(sys, Apply(sys, event, false), id)
  {
    if !IsOutside(event) && event.w in sys.sessions {
      SessionStepGrows(sys, event.w, sys.sessions[event.w], event, id);
    }
  }

  lemma {:induction false} RunGrows(maxAttempts: nat, events: seq<Event>, earlier: nat, later: nat, id: CrawlId)
    requires maxAttempts >= 1 && earlier <= later <= |events|
    ensures Grows(Reached(maxAttempts, events[..earlier]), Reached(maxAttempts, events[..later]), id)
    decreases later
  {
    if earlier < later {
      RunGrows(maxAttempts, events, earlier, later - 1, id);
      assert events[..later] == events[..later - 1] + [events[later - 1]];
      Extended(maxAttempts, events[..later - 1], events[later - 1]);
      KnownCrawl(maxAttempts, events[..later - 1], id);
      StepGrows(Reached(maxAttempts, events[..later - 1]), events[later - 1], id);
    }
  }

  /** One request of a client: how far the run had come, the page size, and the rows it was given. */
  datatype Call = Call(at: nat, limit: nat, rows: seq<PageRow>)

  /** Everything the calls returned, in order. */
  function Read(calls: seq<Call>): seq<PageRow> {
    if |calls| == 0 then [] else Read(calls[..|calls| - 1]) + calls[|calls| - 1].rows
  }

  /** The cursor of a full page is where the next call of such a client starts. */
  lemma CursorResumes(calls: seq<Call>)
    requires |calls| > 0 && calls[|calls| - 1].limit >= 1
    ensures var call := calls[|calls| - 1];
            Cursor(call.rows, call.limit) == if |call.rows| == call.limit then Some(LastSeen(Read(calls))) else None
  {
    var earlier, call := Read(calls[..|calls| - 1]), calls[|calls| - 1];
    assert |call.rows| > 0 ==> (earlier + call.rows)[|earlier| + |call.rows| - 1] == call.rows[|call.rows| - 1];
  }

  /** A client that always resumes from the last row it saw, while the run goes on between its calls. */
  ghost predicate Follows(maxAttempts: nat, events: seq<Event>, id: CrawlId, calls: seq<Call>) {
    |calls| > 0 ==>
      var before, call := calls[..|calls| - 1], calls[|calls| - 1];
      && Follows(maxAttempts, events, id, before)
      && call.at <= |events| && (|before| > 0 ==> before[|before| - 1].at <= call.at)
      && IsPageListing(Reached(maxAttempts, events[..call.at]).db, id, LastSeen(Read(before)), call.limit, call.rows)
  }

  /** `rows` are rows 1 to m of what the latest lease reported, all of them stored. */
  ghost predicate HasRead(sys: System, id: CrawlId, rows: seq<PageRow>) {
    && id in sys.logs && |rows| <= sys.logs[id].stored <= |Last(sys.logs[id])|
    && rows == Last(sys.logs[id])[..|rows|] && LastSeen(rows) == |rows|
  }

  lemma StillRead(sys: System, sys': System, id: CrawlId, rows: seq<PageRow>)
    requires HasRead(sys, id, rows) && Grows(sys, sys', id)
    requires |sys.logs[id].leases| == |sys'.logs[id].leases| && sys'.logs[id].stored <= |Last(sys'.logs[id])|
    ensures HasRead(sys', id, rows)
  {
  }

  lemma ReadsOn(sys: System, id: CrawlId, rows: seq<PageRow>, limit: nat, page: seq<PageRow>)
    requires HasRead(sys, id, rows) && IsPageListing(sys.db, id, LastSeen(rows), limit, page)
    requires NumberedFromOne(Last(sys.logs[id]))
             && StoresPrefix(sys.db.pages, id, Last(sys.logs[id]), sys.logs[id].stored)
    ensures HasRead(sys, id, rows + page)
    ensures |page| < limit ==> |rows + page| == sys.logs[id].stored
  {
    ListingOfPrefix(sys.db, id, Last(sys.logs[id]), sys.logs[id].stored, |rows|, limit, page);
    assert rows + page == Last(sys.logs[id])[..|rows| + |page|];
  }

  /** Between the two points the crawl was not claimed again. */
  ghost predicate SameLease(maxAttempts: nat, events: seq<Event>, id: CrawlId, earlier: nat, later: nat)
    requires earlier <= later <= |events|
  {
    var sys, sys' := Reached(maxAttempts, events[..earlier]), Reached(maxAttempts, events[..later]);
    id in sys.logs && id in sys'.logs && |sys.logs[id].leases| == |sys'.logs[id].leases|
  }

  lemma SameLeaseBetween(maxAttempts: nat, events: seq<Event>, id: CrawlId, earlier: nat, between: nat, later: nat)
    requires maxAttempts >= 1 && earlier <= between <= later <= |events|
             && SameLease(maxAttempts, events, id, earlier, later)
    ensures SameLease(maxAttempts, events, id, earlier, between) && SameLease(maxAttempts, events, id, between, later)
  {
    RunGrows(maxAttempts, events, earlier, between, id);
    RunGrows(maxAttempts, events, between, later, id);
  }

  /**
   * Paging is lossless: within one lease the rows read are rows 1 to m of what the lease reported, none skipped and
   * none repeated, and a page that is not full means that everything stored so far has been read.
   */
  lemma {:induction false} PagingLosesNothing(maxAttempts: nat, events: seq<Event>, id: CrawlId, calls: seq<Call>)
    requires maxAttempts >= 1 && |calls| > 0 && Follows(maxAttempts, events, id, calls)
    requires calls[0].at <= calls[|calls| - 1].at <= |events|
    requires SameLease(maxAttempts, events, id, calls[0].at, calls[|calls| - 1].at)
    ensures var call := calls[|calls| - 1];
            var sys := Reached(maxAttempts, events[..call.at]);
            && HasRead(sys, id, Read(calls))
            && (|call.rows| < call.limit ==> |Read(calls)| == sys.logs[id].stored)
  {
    var before, call := calls[..|calls| - 1], calls[|calls| - 1];
    var sys := Reached(maxAttempts, events[..call.at]);
    StoredPagesAreAPrefix(maxAttempts, events[..call.at], id);
    KnownCrawl(maxAttempts, events[..call.at], id);
    if |before| > 0 {
      var previous := before[|before| - 1];
      CallsInOrder(maxAttempts, events, id, before);
      SameLeaseBetween(maxAttempts, events, id, calls[0].at, previous.at, call.at);
      PagingLosesNothing(maxAttempts, events, id, before);
      RunGrows(maxAttempts, events, previous.at, call.at, id);
      StillRead(Reached(maxAttempts, events[..previous.at]), sys, id, Read(before));
    }
    ReadsOn(sys, id, Read(before), call.limit, call.rows);
  }

  /**
   * Every table the protocol reaches keeps each row under its own number, which is what `ListPages` asks of a table.
   */
  lemma ReachedTablesAreNumbered(maxAttempts: nat, events: seq<Event>)
    requires maxAttempts >= 1
    ensures Numbered(Reached(maxAttempts, events).db)
  {
    RunKeeps(maxAttempts, events);
    var sys := Reached(maxAttempts, events);
    forall key | key in sys.db.pages ensures sys.db.pages[key].number == key.1 {
      var log := sys.logs[key.0];
      assert CrawlOk(key.0, sys.db.crawls[key.0], log, sys.db.pages, maxAttempts);
      assert (key.0, key.1) in sys.db.pages;
      assert NumberedFromOne(Last(log));
    }
  }

  lemma {:induction false} CallsInOrder(maxAttempts: nat, events: seq<Event>, id: CrawlId, calls: seq<Call>)
    requires |calls| > 0 && Follows(maxAttempts, events, id, calls)
    ensures calls[0].at <= calls[|calls| - 1].at <= |events|
  {
    if |calls| > 1 {
      CallsInOrder(maxAttempts, events, id, calls[..|calls| - 1]);
    }
  }

  lemma KnownCrawl(maxAttempts: nat, events: seq<Event>, id: CrawlId)
    requires maxAttempts >= 1
    ensures var sys := Reached(maxAttempts, events); id in sys.logs <==> id in sys.db.crawls
  {
    RunKeeps(maxAttempts, events);
  }
}
