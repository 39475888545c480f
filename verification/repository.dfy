/** `CrawlRepository`: every method one transaction, tied to what it does to the tables. */
module Repository {
  import opened Options
  import opened Tables

  /** A queued row no one is claiming, created no later than any other such row. */
  ghost predicate IsOldestQueued(db: Db, locked: set<CrawlId>, id: CrawlId) {
    && id in db.crawls && db.crawls[id].state == Queued && id !in locked
    && forall other | other in db.crawls && db.crawls[other].state == Queued && other !in locked ::
         db.crawls[id].createdAt <= db.crawls[other].createdAt
  }

  /** The row is running and its last heartbeat came before `deadline`. */
  predicate SilentSince(row: CrawlRow, deadline: int) {
    row.state == Running && row.heartbeatAt.Some? && row.heartbeatAt.value < deadline
  }

  ghost predicate IsPageListing(db: Db, id: CrawlId, after: nat, limit: nat, rows: seq<PageRow>) {
    && |rows| <= limit
    && (forall i | 0 <= i < |rows| :: after < rows[i].number && (id, rows[i].number) in db.pages
                                      && db.pages[(id, rows[i].number)] == rows[i])
    && (forall i, j | 0 <= i < j < |rows| :: rows[i].number < rows[j].number)
    && (forall s: nat | (id, s) in db.pages && after < s ::
          s in Numbers(rows) || (|rows| == limit && forall i | 0 <= i < |rows| :: rows[i].number < s))
  }

  function Numbers(rows: seq<PageRow>): set<nat> {
    set i | 0 <= i < |rows| :: rows[i].number
  }

  /** Each stored row carries the number it is stored under. */
  ghost predicate Numbered(db: Db) {
    forall key | key in db.pages :: db.pages[key].number == key.1
  }

  /** The three updates of `reap`, in the order they are executed. */
  datatype Update = AbortCancelled | RequeueOthers | FailTheRest

  datatype Sweep = Sweep(now: int, leaseSeconds: int, maxAttempts: nat)

  /** The `WHERE` of an update. */
  predicate Matches(update: Update, row: CrawlRow, sweep: Sweep) {
    && Expired(row, sweep.now, sweep.leaseSeconds)
    && (update.AbortCancelled? ==> row.cancelRequested)
    && (update.RequeueOthers? ==> row.attempts < sweep.maxAttempts)
  }

  /** The `SET` of an update, applied to the rows it matches. */
  function UpdatedRow(update: Update, row: CrawlRow, sweep: Sweep): CrawlRow {
    if !Matches(update, row, sweep) then row
    else
      match update
      case AbortCancelled =>
        row.(state := Aborted, workerId := None, finishedAt := Some(sweep.now), error := Some(CancelledByRequest))
      case RequeueOthers => row.(state := Queued, workerId := None, heartbeatAt := None)
      case FailTheRest =>
        row.(state := Failed, workerId := None, finishedAt := Some(sweep.now), error := Some(WorkerLost))
  }

  function Matching(update: Update, crawls: map<CrawlId, CrawlRow>, sweep: Sweep): set<CrawlId> {
    set id | id in crawls && Matches(update, crawls[id], sweep)
  }

  function Updated(update: Update, crawls: map<CrawlId, CrawlRow>, sweep: Sweep): map<CrawlId, CrawlRow> {
    map id | id in crawls :: UpdatedRow(update, crawls[id], sweep)
  }

  /** What the three updates make of one row, in order. */
  function Swept(row: CrawlRow, sweep: Sweep): CrawlRow {
    UpdatedRow(FailTheRest, UpdatedRow(RequeueOthers, UpdatedRow(AbortCancelled, row, sweep), sweep), sweep)
  }

  /**
   * On one row: the updates together are the case split, and exactly one of them matches an expired row. The order
   * matters, because each leaves fewer rows running for the next one.
   */
  lemma UpdatesOfRow(row: CrawlRow, sweep: Sweep)
    ensures Swept(row, sweep) == Reaped(row, sweep.now, sweep.leaseSeconds, sweep.maxAttempts)
    ensures var aborted := UpdatedRow(AbortCancelled, row, sweep);
            var requeued := UpdatedRow(RequeueOthers, aborted, sweep);
            var first, second, third := Matches(AbortCancelled, row, sweep), Matches(RequeueOthers, aborted, sweep),
                                        Matches(FailTheRest, requeued, sweep);
            && (Expired(row, sweep.now, sweep.leaseSeconds) <==> first || second || third)
            && !(first && second) && !(first && third) && !(second && third)
  {
  }

  lemma UpdatesReap(db: Db, sweep: Sweep)
    ensures db.(crawls := Updated(FailTheRest, Updated(RequeueOthers, Updated(AbortCancelled, db.crawls, sweep), sweep),
                                  sweep))
         == Tables.Reap(db, sweep.now, sweep.leaseSeconds, sweep.maxAttempts)
  {
    forall id | id in db.crawls
      ensures Swept(db.crawls[id], sweep) == Reaped(db.crawls[id], sweep.now, sweep.leaseSeconds, sweep.maxAttempts)
    {
      UpdatesOfRow(db.crawls[id], sweep);
    }
  }

  function ExpiredRows(crawls: map<CrawlId, CrawlRow>, sweep: Sweep): set<CrawlId> {
    set id | id in crawls && Expired(crawls[id], sweep.now, sweep.leaseSeconds)
  }

  lemma ExpiredRowIsMatchedOnce(crawls: map<CrawlId, CrawlRow>, sweep: Sweep, id: CrawlId)
    ensures var aborted := Updated(AbortCancelled, crawls, sweep);
            var requeued := Updated(RequeueOthers, aborted, sweep);
            var first, second, third := id in Matching(AbortCancelled, crawls, sweep),
                                        id in Matching(RequeueOthers, aborted, sweep),
                                        id in Matching(FailTheRest, requeued, sweep);
            && (id in ExpiredRows(crawls, sweep) <==> first || second || third)
            && !(first && second) && !(first && third) && !(second && third)
  {
    if id in crawls {
      UpdatesOfRow(crawls[id], sweep);
    }
  }

  /** The three counts add up to the number of expired rows: no row is touched twice. */
  lemma UpdatesCountOnce(crawls: map<CrawlId, CrawlRow>, sweep: Sweep, aborted: map<CrawlId, CrawlRow>,
                         requeued: map<CrawlId, CrawlRow>)
    requires aborted == Updated(AbortCancelled, crawls, sweep)
    requires requeued == Updated(RequeueOthers, aborted, sweep)
    ensures |ExpiredRows(crawls, sweep)|
         == |Matching(AbortCancelled, crawls, sweep)| + |Matching(RequeueOthers, aborted, sweep)|
            + |Matching(FailTheRest, requeued, sweep)|
  {
    var first, second, third := Matching(AbortCancelled, crawls, sweep), Matching(RequeueOthers, aborted, sweep),
                                Matching(FailTheRest, requeued, sweep);
    var all := ExpiredRows(crawls, sweep);
    forall id
      ensures id in all <==> id in first || id in second || id in third
      ensures !(id in first && id in second) && !(id in first && id in third) && !(id in second && id in third)
    {
      ExpiredRowIsMatchedOnce(crawls, sweep, id);
    }
    ThreeParts(first, second, third, all);
  }

  lemma ThreeParts<T>(a: set<T>, b: set<T>, c: set<T>, all: set<T>)
    requires a !! b !! c && all == a + b + c
    ensures |all| == |a| + |b| + |c|
  {
  }

  class CrawlRepository {
    var crawls: map<CrawlId, CrawlRow>
    var pages: PageTable

    ghost function View(): Db
      reads this
    {
      Db(crawls, pages)
    }

    constructor ()
      ensures View() == Db(map[], map[])
    {
      crawls, pages := map[], map[];
    }

    method Create(id: CrawlId, now: int)
      requires id !in crawls
      modifies this`crawls
      ensures View() == Tables.Create(old(View()), id, now)
      ensures crawls == old(crawls)[id := CrawlRow(Queued, now, None, None, None, None, 0, false, None, None)]
    {
      crawls := crawls[id := CrawlRow(Queued, now, None, None, None, None, 0, false, None, None)];
    }

    method Get(id: CrawlId) returns (row: Option<CrawlRow>)
      ensures row == if id in crawls then Some(crawls[id]) else None
    {
      return if id in crawls then Some(crawls[id]) else None;
    }

    /** The oldest queued crawl among those not in `locked`, the rows another claim holds. */
    method Claim(w: WorkerId, locked: set<CrawlId>, now: int) returns (claimed: Option<CrawlId>)
      modifies this
      ensures claimed.None? ==>
                View() == old(View()) && forall id | id in crawls && crawls[id].state == Queued :: id in locked
      ensures claimed.Some? ==> IsOldestQueued(old(View()), locked, claimed.value)
                                && View() == Tables.Claim(old(View()), claimed.value, w, now)
      ensures claimed.Some? ==>
                var id, row := claimed.value, old(crawls)[claimed.value];
                && crawls == old(crawls)[id := row.(state := Running, startedAt := Some(now), heartbeatAt := Some(now),
                                                    workerId := Some(w), attempts := row.attempts + 1)]
                && (forall key :: key in pages <==> key in old(pages) && key.0 != id)
                && (forall key | key in pages :: pages[key] == old(pages)[key])
    {
      var candidates := set id | id in crawls && crawls[id].state == Queued && id !in locked;
      if candidates == {} {
        assert forall id | id in crawls && crawls[id].state == Queued :: id in locked || id in candidates;
        return None;
      }
      var id :| id in candidates;
      var rest := candidates - {id};
      while rest != {}
        invariant id in candidates && rest <= candidates
        invariant forall other | other in candidates - rest :: crawls[id].createdAt <= crawls[other].createdAt
        decreases |rest|
      {
        var other :| other in rest;
        rest := rest - {other};
        if crawls[other].createdAt < crawls[id].createdAt {
          id := other;
        }
      }
      var attempts := crawls[id].attempts;
      pages := map key | key in pages && key.0 != id :: pages[key];
      crawls := crawls[id := crawls[id].(state := Running, startedAt := Some(now), heartbeatAt := Some(now),
                                         workerId := Some(w), attempts := attempts + 1)];
      return Some(id);
    }

    method Heartbeat(id: CrawlId, w: WorkerId, now: int, stats: Stats) returns (cancelRequested: Option<bool>)
      modifies this`crawls
      ensures (View(), cancelRequested) == Tables.Heartbeat(old(View()), id, w, now, stats)
      ensures cancelRequested.Some?
         <==> id in old(crawls) && old(crawls)[id].workerId == Some(w) && old(crawls)[id].state == Running
      ensures if cancelRequested.None? then crawls == old(crawls)
              else crawls == old(crawls)[id := old(crawls)[id].(heartbeatAt := Some(now), stats := Some(stats))]
                   && cancelRequested.value == old(crawls)[id].cancelRequested
    {
      if id !in crawls || crawls[id].workerId != Some(w) || crawls[id].state != Running {
        return None;
      }
      crawls := crawls[id := crawls[id].(heartbeatAt := Some(now), stats := Some(stats))];
      return Some(crawls[id].cancelRequested);
    }

    /** Nothing is returned, and nothing written, for a state that is not terminal: the `ValueError`. */
    method Finish(id: CrawlId, w: WorkerId, now: int, state: CrawlState, stats: Stats, error: Option<Error>)
      returns (recorded: Option<bool>)
      modifies this`crawls
      ensures recorded.Some? <==> IsTerminal(state)
      ensures if recorded.None? then View() == old(View())
              else (View(), recorded.value) == Tables.Finish(old(View()), id, w, now, state, stats, error)
      ensures recorded.Some? ==>
                && recorded.value == (id in old(crawls) && old(crawls)[id].workerId == Some(w))
                && crawls == if !recorded.value then old(crawls)
                             else var row := old(crawls)[id];
                                  old(crawls)[id := row.(state := state, finishedAt := Some(now), stats := Some(stats),
                                                         error := error)]
    {
      if state != Finished && state != Failed && state != Aborted {
        return None;
      }
      if id !in crawls || crawls[id].workerId != Some(w) {
        return Some(false);
      }
      var row := crawls[id].(state := state, finishedAt := Some(now), stats := Some(stats), error := error);
      crawls := crawls[id := row];
      return Some(true);
    }

    method Release(id: CrawlId, w: WorkerId) returns (released: bool)
      modifies this`crawls
      ensures (View(), released) == Tables.Release(old(View()), id, w)
      ensures released == (id in old(crawls) && old(crawls)[id].workerId == Some(w) && !old(crawls)[id].cancelRequested)
      ensures crawls == if !released then old(crawls)
                        else var row := old(crawls)[id];
                             old(crawls)[id := row.(state := Queued, workerId := None, heartbeatAt := None,
                                                    attempts := if row.attempts >= 1 then row.attempts - 1 else 0)]
    {
      if id !in crawls || crawls[id].workerId != Some(w) || crawls[id].cancelRequested {
        return false;
      }
      var attempts := crawls[id].attempts - 1;
      crawls := crawls[id := crawls[id].(state := Queued, workerId := None, heartbeatAt := None,
                                         attempts := if attempts > 0 then attempts else 0)];
      return true;
    }

    /** One `UPDATE`, and how many rows it touched. */
    method Execute(update: Update, sweep: Sweep) returns (touched: nat)
      modifies this`crawls
      ensures crawls == Updated(update, old(crawls), sweep)
      ensures touched == |Matching(update, old(crawls), sweep)|
    {
      touched := |Matching(update, crawls, sweep)|;
      crawls := Updated(update, crawls, sweep);
    }

    /** Three updates in order, each seeing the rows the one before left running. */
    method Reap(now: int, leaseSeconds: int, maxAttempts: nat) returns (touched: nat)
      modifies this`crawls
      ensures View() == Tables.Reap(old(View()), now, leaseSeconds, maxAttempts)
      ensures crawls.Keys == old(crawls).Keys
      ensures forall id | id in old(crawls) && !SilentSince(old(crawls)[id], now - leaseSeconds) ::
                crawls[id] == old(crawls)[id]
      ensures forall id | id in old(crawls) && SilentSince(old(crawls)[id], now - leaseSeconds) ::
                var row := old(crawls)[id];
                crawls[id] == if row.cancelRequested then
                                row.(state := Aborted, workerId := None, finishedAt := Some(now),
                                     error := Some(CancelledByRequest))
                              else if row.attempts < maxAttempts then
                                row.(state := Queued, workerId := None, heartbeatAt := None)
                              else
                                row.(state := Failed, workerId := None, finishedAt := Some(now),
                                     error := Some(WorkerLost))
      ensures touched == |set id | id in old(crawls) && SilentSince(old(crawls)[id], now - leaseSeconds)|
    {
      var sweep := Sweep(now, leaseSeconds, maxAttempts);
      UpdatesReap(View(), sweep);
      UpdatesCountOnce(crawls, sweep, Updated(AbortCancelled, crawls, sweep),
                       Updated(RequeueOthers, Updated(AbortCancelled, crawls, sweep), sweep));
      touched := Execute(AbortCancelled, sweep);
      var requeued := Execute(RequeueOthers, sweep);
      var lost := Execute(FailTheRest, sweep);
      touched := touched + requeued + lost;
      assert ExpiredRows(old(crawls), sweep)
          == set id | id in old(crawls) && SilentSince(old(crawls)[id], now - leaseSeconds);
    }

    method RequestCancel(id: CrawlId, now: int) returns (state: Option<CrawlState>)
      modifies this`crawls
      ensures (View(), state) == Tables.RequestCancel(old(View()), id, now)
      ensures id !in old(crawls) ==> state == None && crawls == old(crawls)
      ensures id in old(crawls) ==>
                var row := old(crawls)[id];
                var after := if row.state == Queued then
                               row.(state := Aborted, finishedAt := Some(now), error := Some(CancelledBeforeStart))
                             else if row.state == Running then row.(cancelRequested := true)
                             else row;
                crawls == old(crawls)[id := after] && state == Some(after.state)
    {
      if id !in crawls {
        return None;
      }
      var found := crawls[id].state;
      assert crawls[id := crawls[id]] == crawls;
      if found == Queued {
        var row := crawls[id].(state := Aborted, finishedAt := Some(now), error := Some(CancelledBeforeStart));
        crawls := crawls[id := row];
        return Some(Aborted);
      }
      if found == Running {
        crawls := crawls[id := crawls[id].(cancelRequested := true)];
      }
      return Some(found);
    }

    /** False stands for `LeaseLostError`. */
    method InsertPages(id: CrawlId, w: WorkerId, rows: seq<PageRow>) returns (accepted: bool)
      modifies this`pages
      ensures (View(), accepted) == Tables.InsertPages(old(View()), id, w, rows)
      ensures accepted
         <==> rows == [] || (id in crawls && crawls[id].workerId == Some(w) && crawls[id].state == Running)
      ensures if accepted then Inserts(old(pages), pages, id, rows) else pages == old(pages)
    {
      InsertIgnoringInserts(pages, id, rows);
      if |rows| == 0 {
        return true;
      }
      if id !in crawls || crawls[id].workerId != Some(w) || crawls[id].state != Running {
        return false;
      }
      pages := InsertIgnoring(pages, id, rows);
      return true;
    }

    /** The first `limit` rows after `after`, in order. */
    method ListPages(id: CrawlId, after: nat, limit: nat) returns (rows: seq<PageRow>)
      requires Numbered(View())
      ensures IsPageListing(View(), id, after, limit, rows)
    {
      var waiting := NumbersAfter(pages, id, after);
      rows := [];
      while waiting != {} && |rows| < limit
        invariant |rows| <= limit && waiting <= NumbersAfter(pages, id, after)
        invariant IsPrefixListing(pages, id, after, rows, waiting)
        decreases |waiting|
      {
        var least := Least(waiting);
        NextRow(pages, id, after, rows, waiting, least);
        rows := rows + [pages[(id, least)]];
        waiting := waiting - {least};
      }
      assert waiting == {} || |rows| == limit;
    }
  }

  /** Row `i` is the first of `rows` with its number. */
  ghost predicate IsFirst(rows: seq<PageRow>, i: nat) {
    i < |rows| && forall j | 0 <= j < i :: rows[j].number != rows[i].number
  }

  /** The first row of each number not taken before is stored under it; nothing else changes. */
  ghost predicate Inserts(pages: PageTable, pages': PageTable, id: CrawlId, rows: seq<PageRow>) {
    && (forall key :: key in pages' <==> key in pages || (key.0 == id && key.1 in Numbers(rows)))
    && (forall key | key in pages :: pages'[key] == pages[key])
    && (forall i: nat | IsFirst(rows, i) && (id, rows[i].number) !in pages :: pages'[(id, rows[i].number)] == rows[i])
  }

  lemma {:induction false} InsertIgnoringInserts(pages: PageTable, id: CrawlId, rows: seq<PageRow>)
    ensures Inserts(pages, InsertIgnoring(pages, id, rows), id, rows)
  {
    if |rows| > 0 {
      var before, row := rows[..|rows| - 1], rows[|rows| - 1];
      InsertIgnoringInserts(pages, id, before);
      InsertsOneMore(pages, InsertIgnoring(pages, id, before), id, before, row);
      assert rows == before + [row];
    }
  }

  lemma NumbersOfMore(rows: seq<PageRow>, row: PageRow)
    ensures Numbers(rows + [row]) == Numbers(rows) + {row.number}
  {
    var more := rows + [row];
    forall n | n in Numbers(rows) + {row.number} ensures n in Numbers(more) {
      if n in Numbers(rows) {
        var i :| 0 <= i < |rows| && rows[i].number == n;
        assert more[i].number == n;
      } else {
        assert more[|rows|].number == n;
      }
    }
  }

  lemma FirstOfMore(rows: seq<PageRow>, row: PageRow, i: nat)
    requires IsFirst(rows + [row], i)
    ensures i < |rows| ==> IsFirst(rows, i) && rows[i].number in Numbers(rows) && (rows + [row])[i] == rows[i]
    ensures i == |rows| ==> row.number !in Numbers(rows) && (rows + [row])[i] == row
  {
    var more := rows + [row];
    assert forall j | 0 <= j < |rows| :: more[j] == rows[j];
  }

  lemma InsertsOneMore(pages: PageTable, mid: PageTable, id: CrawlId, before: seq<PageRow>, row: PageRow)
    requires Inserts(pages, mid, id, before)
    ensures Inserts(pages, if (id, row.number) in mid then mid else mid[(id, row.number) := row], id, before + [row])
  {
    NumbersOfMore(before, row);
    forall i: nat | IsFirst(before + [row], i)
      ensures if i < |before| then
                IsFirst(before, i) && before[i].number in Numbers(before) && (before + [row])[i] == before[i]
              else row.number !in Numbers(before) && (before + [row])[i] == row
    {
      FirstOfMore(before, row, i);
    }
  }

  function NumbersAfter(pages: PageTable, id: CrawlId, after: nat): (numbers: set<nat>)
    ensures forall n :: n in numbers <==> after < n && (id, n) in pages
  {
    var numbers := set key | key in pages && key.0 == id && key.1 > after :: key.1;
    assert forall n | (id, n) in pages && after < n :: (id, n).1 in numbers;
    numbers
  }

  /** `rows` lists, in order, the stored rows after `after` whose numbers are not `waiting`, all of them smaller. */
  ghost predicate IsPrefixListing(pages: PageTable, id: CrawlId, after: nat, rows: seq<PageRow>, waiting: set<nat>) {
    && Numbers(rows) == NumbersAfter(pages, id, after) - waiting
    && (forall i | 0 <= i < |rows| :: after < rows[i].number && (id, rows[i].number) in pages
                                      && pages[(id, rows[i].number)] == rows[i])
    && (forall i, j | 0 <= i < j < |rows| :: rows[i].number < rows[j].number)
    && (forall i, n | 0 <= i < |rows| && n in waiting :: rows[i].number < n)
  }

  lemma NextRow(pages: PageTable, id: CrawlId, after: nat, rows: seq<PageRow>, waiting: set<nat>, least: nat)
    requires IsPrefixListing(pages, id, after, rows, waiting) && waiting <= NumbersAfter(pages, id, after)
    requires least in waiting && forall n | n in waiting :: least <= n
    requires forall key | key in pages :: pages[key].number == key.1
    ensures IsPrefixListing(pages, id, after, rows + [pages[(id, least)]], waiting - {least})
  {
    NumbersGrow(rows, pages[(id, least)]);
  }

  lemma NumbersGrow(rows: seq<PageRow>, row: PageRow)
    ensures Numbers(rows + [row]) == Numbers(rows) + {row.number}
  {
    var more := rows + [row];
    assert more[|rows|] == row;
    forall i | 0 <= i < |rows| ensures rows[i].number in Numbers(more) {
      assert more[i] == rows[i];
    }
  }

  method Least(numbers: set<nat>) returns (least: nat)
    requires numbers != {}
    ensures least in numbers && forall n | n in numbers :: least <= n
  {
    least :| least in numbers;
    var rest := numbers - {least};
    while rest != {}
      invariant least in numbers && rest <= numbers
      invariant forall n | n in numbers && n !in rest :: least <= n
      decreases |rest|
    {
      var n :| n in rest;
      rest := rest - {n};
      if n < least {
        least := n;
      }
    }
  }
}
