# url-crawler: a verified model

This project models the crawling library (`src/url_crawler`) and the crawl service around it
(`src/url_crawler_service`) in Dafny and proves what the two promise. `dafny verify dfyconfig.toml` checks all of it.

## The crawl lease protocol

Any number of workers share the tables `crawl` and `page`. A worker claims a queued crawl, sends heartbeats while it
crawls, inserts pages in batches, and ends with a final write or a release; the reaper takes crawls from workers that went
silent; the API creates and cancels. No statement carries a lease number: rows are fenced by `worker_id` alone.

- `tables.dfy` says what each transaction does to the two tables, `repository.dfy` has the class with its methods.
- `reporter_model.dfy` and `reporter.dfy` have the page buffer of `DbReporter`, as a value and as the class.
- `lease_model.dfy` is the state machine: live sessions, the tables, and every step a worker, the reaper or the API can
  take, with every reply that can get lost. `lease_invariants.dfy`, `lease_steps.dfy`, `lease_pages.dfy` and
  `lease_claims.dfy` have its inductive invariant; `lease_theorems.dfy` has what follows for every run, `lease_clock.dfy`
  when a lease can be lost, and `reported_pages.dfy` what a client is shown of the pages a crawl emitted.
- `worker.dfy` is the class `Worker` with its loops, which `worker_steps.dfy` shows to be runs of the state machine;
  `paging.dfy` is the cursor of `GET /crawls/{id}/pages`.

The history a proof speaks of (which pages each lease reported, how many are stored, how many releases committed) is a log
beside the tables that no statement reads. Steps are not tied to a clock: the reaper may come at any time.

What the results rest on, and the code does not check:

- Live workers have distinct ids, and a worker runs one crawl at a time.
- No statement takes effect after its client has given up waiting for it.
- All workers share one `max_attempts`, and it is at least 1 (`settings.py` checks the bound).
- `reap` is atomic. It is three statements in one transaction; at READ COMMITTED a cancel request could commit between them.
  `reap_race.dfy` has the exact condition under which that queues a flagged crawl, and what the next claim makes of it.
- The crawl's own error texts and flush errors do not start with one of the repository's constants.
- `pages_total` grows by one with every reported page; `CrawlTheorems.WithinBudget` proves this of the crawler.

## The crawl

`crawl_model.dfy` has the state of one crawl and its two atomic steps: taking a url up to the await of its fetch, and
handling the answer. Fetching, extracting links, scope, robots and keys are arbitrary functions; a fetch or an extraction may
raise. `crawl_invariants.dfy`, `crawl_theorems.dfy` and `crawl_tally.dfy` have the results for every interleaving of the
workers, `crawl_seed.dfy` those for the redirect chain of the seed, and `crawler.dfy` has the classes `Frontier` and
`Crawler`, whose workers perform runs of the model. Results speak of what the site's urls answer, not of what the code
takes from the answers.

## The algorithms

- `dot_segments.dfy`, `query.dfy`, `key_order.dfy`, `escapes.dfy`, `stray_escapes.dfy`, `marked_readings.dfy`,
  `canonical_key.dfy` and `key_soundness.dfy`: url canonical forms (`urls.py`).
- `fetcher.dfy`: bounded reading of a compressed body (`read_bounded`). A decoder is any function from input prefixes to
  output that only ever extends its output; output shorter than the limit means that all input was used.
- `robots_matching.dfy`, `robots_groups.dfy` and `robots_lines.dfy`: robots.txt (RFC 9309, sections 2.2.1 to 2.2.3).

Where the code does less than its comments suggest, the code was followed and the exact condition proved:

- Escape folding and canonical keys are idempotent only under the conditions in the table, and folding keeps the decoded
  octets only without stray escapes.
- The sorted query is said to keep repeated keys in their given order. It sorts by the key as it is spelled, so two spellings
  of one key can change places; `KeyOrder.OrderIsKeptIff` says exactly when the order is kept.
- Robots.txt patterns follow RFC 9309, section 2.2.3 exactly on the targets named in the table: a star in a rule stops at a
  newline, and a final `$` overlooks one.

## Model

| member | source | states |
|---|---|---|
| LeaseTheorems.FencingEqualsEpoch | src/url_crawler_service/repository.py:50-136 | A run in which every heartbeat, insert, release and final write also had to prove that its lease is the latest claim of the crawl is the same run, step by step, as one fenced by `worker_id` alone; for every list of steps, whatever is lost, crashes, is reaped or claimed again |
| LeaseTheorems.HolderHasTheLatestLease | src/url_crawler_service/repository.py:50-78 | In every reachable state a live worker whose id is on the row of its crawl holds that crawl's latest claim, and no other live session holds the same claim |
| LeaseTheorems.TerminalIsAbsorbing | src/url_crawler_service/repository.py:97-136 | Once a crawl is finished, failed or aborted, no later step changes its state, stats, error or stored pages, although `finish` and `release` test no state and `finish` is repeated |
| LeaseTheorems.FinishedMeansComplete | src/url_crawler_service/worker.py:142-158 | A finished crawl's table rows are exactly 1..n of what its last lease reported, and n is the recorded `pages_total` |
| LeaseTheorems.StoredPagesAreAPrefix | src/url_crawler_service/repository.py:204-240 | In every reachable state the stored pages of a crawl are rows 1..k of what its latest lease reported, and nothing else |
| LeaseTheorems.WrittenIsStored | src/url_crawler_service/reporter.py:47-87 | For the worker of the latest lease, on the row or already reaped: `pages_written` <= stored <= reported, and the buffer holds exactly the reported rows behind `pages_written`, unless they were discarded for a lost lease |
| LeaseTheorems.ConflictsAreDuplicates | src/url_crawler_service/repository.py:232-240 | A row of a batch whose number is already taken is already stored with the same contents, so `ON CONFLICT DO NOTHING` drops only duplicates |
| LeaseTheorems.AttemptAccounting | src/url_crawler_service/repository.py:66-75 | attempts = claims - releases; claims <= `max_attempts` + releases; queued rows have attempts left, running rows between 1 and the limit; the floor `greatest(..., 0)` of a release never bites |
| LeaseTheorems.CancelIsNeverLost | src/url_crawler_service/repository.py:179-202 | Once the cancel flag is set, in every continuation it stays set, the crawl is never claimed again and never queued again |
| LeaseTheorems.CancelledWasRequested | src/url_crawler_service/worker.py:166-187 | An error that starts with "cancelled by request" is only ever stored on a crawl whose flag was set |
| LeaseTheorems.EveryCrawlCanSettle | src/url_crawler_service/repository.py:138-177 | From every reachable state a bounded continuation of crashes, claims and reaps alone makes the crawl terminal: no row is out of the reaper's sight |
| LeaseTheorems.RunKeeps | src/url_crawler_service/worker.py:77-158 | The invariant behind these results holds after every list of steps |
| LeaseTheorems.SessionStepTouches | src/url_crawler_service/repository.py:80-136 | A step of a worker changes a row only in three ways, each with its id on it: a heartbeat of a running row, its own terminal state, or a release of an unflagged row; it changes pages only of a crawl that runs under it |
| LeaseClock.ReapTakesOnlyTheSilent | src/url_crawler_service/repository.py:138-177 | In every reachable state a sweep takes a running crawl from its worker exactly when the last claim or written heartbeat lies more than a lease back, and then aborts a flagged one, queues one with attempts left and fails any other; every other row stays as it is |
| LeaseClock.HeartbeatIsLastBeat | src/url_crawler_service/repository.py:66-95 | A running row always carries the time of the last claim or written heartbeat, read off the steps |
| LeaseClock.OnlySilenceFreesTheRow | src/url_crawler_service/repository.py:97-177 | Only its own final write or release, or a sweep after more than a lease of silence, takes a running crawl from its worker |
| LeaseClock.BeatingKeepsTheLease | src/url_crawler_service/worker.py:273-299 | Over any stretch of a run, a worker whose heartbeats are written in time keeps its crawl until it ends it itself |
| ReportedPages.StoredPagesReadBack | src/url_crawler_service/models.py:20-30 | In every reachable state row k of the table, read back field by field, is the k-th page emitted since the crawl was last claimed |
| ReportedPages.FinishedShowsAll | src/url_crawler_service/worker.py:142-158 | A finished crawl shows every page its last worker emitted, each under its number, and no other |
| ReportedPages.ClientIsShownWhatWasEmitted | src/url_crawler_service/api.py:105-113 | A client that follows the cursor within one lease is shown the first emitted pages, in order and unchanged |
| ReportedPages.LogSaysEmitted | src/url_crawler_service/reporter.py:47-51 | What is kept of a lease says, page by page, what that lease emitted |
| LeaseClaims.StepKeeps | src/url_crawler_service/repository.py:25-240 | Every step of any worker, the reaper or the API keeps the invariant |
| LeaseClaims.ClaimKeeps | src/url_crawler_service/repository.py:50-78 | A claim, acknowledged or not, keeps the invariant: it starts from an empty page set and takes no other session's lease |
| LeaseClaims.ReapKeeps | src/url_crawler_service/repository.py:138-177 | Reaping at any time and with any lease length keeps the invariant |
| LeaseClaims.CancelKeeps | src/url_crawler_service/repository.py:179-202 | A cancel request at any time keeps the invariant |
| LeaseSteps.HeartbeatKeeps | src/url_crawler_service/worker.py:273-299 | A heartbeat and what the watcher makes of its reply, or of silence, keep the invariant |
| LeaseSteps.ReleaseKeeps | src/url_crawler_service/worker.py:261-271 | Handing a crawl back, and the final write after a refusal, keep the invariant |
| LeaseSteps.FinishKeeps | src/url_crawler_service/worker.py:247-259 | The final write, repeated or not, keeps the invariant |
| LeaseSteps.RecordKeeps | src/url_crawler_service/worker.py:152-158 | What follows the closing flush keeps the invariant; a crawl can only go on to be finished when nothing waits in the buffer |
| LeaseSteps.EndCrawlKeeps | src/url_crawler_service/worker.py:166-187 | The outcome of the crawl task keeps the invariant: a cancel error needs a cancel request |
| LeasePages.InsertKeeps | src/url_crawler_service/repository.py:204-240 | An insert keeps the invariant, and every row it accepts is stored under the latest lease |
| LeasePages.InsertStores | src/url_crawler_service/repository.py:232-240 | Inserting a stretch of the reported rows that starts within the stored prefix extends the prefix to the end of the stretch and changes no stored row and no other crawl |
| LeasePages.FinishFlushKeeps | src/url_crawler_service/reporter.py:79-87 | The end of a flush keeps the invariant for every delivery: committed, committed without a reply, or never sent |
| LeasePages.CloseKeeps | src/url_crawler_service/worker.py:196-214 | The closing flush keeps the invariant, whether it is clean, refused or fails with or without landing |
| LeasePages.EmitKeeps | src/url_crawler_service/reporter.py:47-51 | Reporting a page keeps the invariant for its own lease and every other |
| LeaseInvariants.WorkerStep | src/url_crawler_service/worker.py:77-105 | A change to one crawl and one session keeps the whole invariant if it fits the row and spares what the other workers of that crawl rely on |
| Reporting.EndFlushHolds | src/url_crawler_service/reporter.py:79-87 | After a flush the buffer still holds the unwritten rows in order, whatever arrived meanwhile and whether or not the batch committed |
| Repository.UpdatesOfRow | src/url_crawler_service/repository.py:138-177 | On one row the three ordered updates of `reap` amount to one case split, and exactly one of them matches an expired row, none any other |
| Repository.UpdatesReap | src/url_crawler_service/repository.py:138-177 | The three updates, one after the other over the whole table, are that case split on every row |
| Repository.UpdatesCountOnce | src/url_crawler_service/repository.py:172-177 | The three counts add up to the number of expired rows |
| ReapRace.RacedReapKeepsIff | src/url_crawler_service/repository.py:138-202 | A cancel request that commits between two updates of one `reap` breaks the invariant of the protocol exactly when it falls between the first and the second, for an expired, unflagged running row with attempts left; the row is then queued with its flag set |
| ReapRace.RaceIsPossibleIff | src/url_crawler_service/repository.py:138-202 | Such a row can be reached exactly when `max_attempts` is at least 2 |
| ReapRace.OutsideTheSweep | src/url_crawler_service/repository.py:138-202 | A request before the first or after the last update is one before or after an atomic `reap` |
| ReapRace.NextClaimIsToldAtOnce | src/url_crawler_service/repository.py:50-95 | After the race the row can be claimed once more, and the first heartbeat of that claim answers the flag |
| Repository.CrawlRepository.Create | src/url_crawler_service/repository.py:31-37 | A new crawl is queued, unclaimed, unflagged and without attempts |
| Repository.CrawlRepository.Claim | src/url_crawler_service/repository.py:50-78 | Claims an oldest queued row that no one else is claiming, deletes its pages and writes the row as specified; returns nothing, and changes nothing, exactly when there is none |
| Repository.CrawlRepository.Heartbeat | src/url_crawler_service/repository.py:80-95 | Refreshes the row running under the worker and answers its cancel flag, otherwise nothing |
| Repository.CrawlRepository.Finish | src/url_crawler_service/repository.py:97-115 | Refuses a state that is not terminal; otherwise writes it to a row that carries the worker's id, whatever the row's state, and says whether it did |
| Repository.CrawlRepository.Release | src/url_crawler_service/repository.py:117-136 | Queues the row again unless it was cancelled or taken |
| Repository.CrawlRepository.Reap | src/url_crawler_service/repository.py:138-177 | Three updates in order: a running row whose heartbeat is older than the lease is aborted, queued or failed, with the fields written out; any other row stays; the count is the number of such rows |
| Repository.CrawlRepository.RequestCancel | src/url_crawler_service/repository.py:179-202 | Aborts a queued crawl, flags a running one, leaves a finished one alone, and answers the resulting state |
| Repository.CrawlRepository.InsertPages | src/url_crawler_service/repository.py:204-240 | Inserts rows only for the running row's worker, skipping numbers already taken |
| Repository.InsertIgnoringInserts | src/url_crawler_service/repository.py:232-240 | The first row of each number not taken before is stored under it, and nothing else changes |
| Repository.CrawlRepository.ListPages | src/url_crawler_service/repository.py:242-252 | Returns the stored rows after the cursor in order, up to the limit, leaving none out in between |
| Reporter.DbReporter.Page | src/url_crawler_service/reporter.py:47-51 | Numbers the page, puts a row with its url, status, error kind, error message, links and time behind the others and signals a full buffer |
| Reporter.DbReporter.Flush | src/url_crawler_service/reporter.py:79-87 | Sends the whole buffer; it leaves the buffer and counts as written exactly when the reply says it committed, and pages that arrive meanwhile stay behind it |
| Reporter.DbReporter.Run | src/url_crawler_service/reporter.py:60-71 | Whatever is lost in any round, the table holds a prefix of what was reported that covers all that counts as written; only a lost lease ends the loop early |
| Reporter.DbReporter.Close | src/url_crawler_service/reporter.py:73-77 | A close without an exception leaves everything reported in the table, unless it was discarded, whether or not the flusher still had a batch in flight; it fails only for a lost exchange or a timeout |
| Reporter.DbReporter.AwaitLock | src/url_crawler_service/reporter.py:79-87 | The batch in flight ends like any other before the closing flush may begin |
| Reporter.InsertedBacks | src/url_crawler_service/reporter.py:79-87 | A batch sent again, with more rows behind those already stored, extends the same prefix |
| Workers.RepeatedWritesAreOne | src/url_crawler_service/worker.py:247-259 | However many tries are lost, the retried final write leaves the tables as after one write or none, and its answer tells which when there is one |
| Workers.FinishedVerdict | src/url_crawler_service/worker.py:152-158 | A row ends finished only after a completed crawl with a clean closing flush and an intact lease; without the row, or with a lease known to be lost, nothing is written |
| Workers.AnsweredVerdict | src/url_crawler_service/worker.py:152-187 | If some try at the final write is answered before the worker gives up, however many are lost before it, the row tells how the crawl ended, with the given stats: completed, stopped by its fuse, failed, cancelled, or back in the queue; an error of the closing flush is kept |
| WorkerSteps.FinalWritesAreSteps | src/url_crawler_service/worker.py:247-259 | The retry loop is a run of final-write steps of the protocol, so the results above cover it |
| WorkerSteps.RejectIsSteps | src/url_crawler_service/worker.py:160-164 | Failing a crawl whose configuration does not build is a run of the protocol |
| WorkerSteps.BeatsAreSteps | src/url_crawler_service/worker.py:273-299 | The heartbeat loop, with any pages the crawl reports between two heartbeats, is a run of the protocol up to the interrupt it raises |
| WorkerSteps.FlushIsSteps | src/url_crawler_service/reporter.py:79-87 | A flush, with the pages that arrive during it, is a run of the protocol that leaves the tables and the buffer the class computes |
| WorkerSteps.CloseIsSteps | src/url_crawler_service/worker.py:196-214 | The closing flush is a run of the protocol: with or without a batch in flight, in time or not, written, refused or failed, it leaves the tables, the interrupt and the flush error that the class computes |
| WorkerSteps.RecordIsSteps | src/url_crawler_service/worker.py:216-271 | Whatever the closing flush came to, what follows it, through the release, the look at the row after a refusal, or the final writes, is a run of the protocol |
| WorkerSteps.SettleIsSteps | src/url_crawler_service/worker.py:142-158 | The whole end of a job, from the outcome of the crawl on, is a run of the protocol: it leaves the tables that `Worker.Settle` leaves |
| Workers.OnlySilenceLosesTheLease | src/url_crawler_service/worker.py:273-299 | Exactly when heartbeats end a job while no one else writes the row: on an unflagged row of the worker, if and only if some beat goes unanswered a lease or more after the last reply before it; on a flagged one, with a cancel request at the first reply unless such a silence comes first; on any other row, at the first reply or such a silence |
| Workers.Worker.Watch | src/url_crawler_service/worker.py:273-299 | The heartbeat loop: what it writes and which interrupt it raises, for any sequence of replies and losses |
| Workers.Worker.WriteTerminalState | src/url_crawler_service/worker.py:247-259 | The retry loop computes the specified tables and answer |
| Workers.Worker.Reject | src/url_crawler_service/worker.py:160-164 | Writes the failed state with that error and an empty summary; the row says so once a try is answered |
| Workers.Worker.DrainPages | src/url_crawler_service/worker.py:196-214 | Without a lost lease and without an error, everything reported is stored; a refused insert is turned into a lost lease only when the row is not running under the worker |
| Workers.Worker.Requeue | src/url_crawler_service/worker.py:261-271 | Releases; after a refusal the row is looked up and only then the cancelled state written; a release or a look-up without a reply propagates, exactly then, and nothing more is written |
| Workers.Worker.Record | src/url_crawler_service/worker.py:216-224 | Leaves a lost lease alone, requeues on shutdown, otherwise writes the terminal state |
| Workers.Worker.Settle | src/url_crawler_service/worker.py:142-158 | From the end of the crawl on, with or without a batch still in flight: a row that ends finished has all reported pages stored, the given stats and no error; if a final write is ever answered the row tells how the crawl ended; a worker that is not on the row, or knows it, leaves the row alone |
| Workers.Worker.ReapIfDue | src/url_crawler_service/worker.py:87-95 | Reaps once per lease, counted from the last attempt |
| Paging.ListCrawlPages | src/url_crawler_service/api.py:105-113 | 404 exactly for an unknown crawl; otherwise the next rows in order, and the last number as cursor exactly when the page is full |
| Paging.ListingOfPrefix | src/url_crawler_service/repository.py:242-252 | On a table that holds a prefix, a listing is exactly the next rows, a full page or all that are left |
| Paging.PagingLosesNothing | src/url_crawler_service/api.py:105-113 | Within one lease a client that resumes from the last number it saw, with any steps of the protocol between its calls, has read rows 1..m of what the lease reported with no gap or repeat, and a page that is not full means it has read all that was stored |
| Paging.ReachedTablesAreNumbered | src/url_crawler_service/repository.py:242-252 | Every reachable table keeps each row under its own number, which is what listing asks of it |
| Paging.CursorResumes | src/url_crawler_service/api.py:113 | The cursor is where such a client resumes, and there is one exactly when the page is full |
| Paging.RunGrows | src/url_crawler_service/reporter.py:79-87 | Over any stretch of a run no claim is undone, and within one lease no reported or stored page is taken back |
| CrawlSeed.EveryCrawlIsComplete | src/url_crawler/crawler.py:82-104 | Every crawl, from any redirect chain and under every interleaving, once drained: reported pages say what their urls answered, are reachable through such answers, have distinct keys and stay within the budget; it is aborted exactly when the fuse condition holds; unless it was aborted or its budget is spent, whatever a page links or redirects to, in scope and allowed, was reported |
| CrawlSeed.LiveIsSound | src/url_crawler/crawler.py:195-234 | All of this but the closure holds at any point of a crawl; it stops early only when aborted or when its budget is spent |
| CrawlSeed.RunKeepsToRules | src/url_crawler/crawler.py:225-234 | Under every interleaving, every url found behind the seed chain is in scope and allowed by robots: no other is ever taken to be fetched |
| CrawlSeed.EndIsUnique | src/url_crawler/crawler.py:106-135 | A seed has one redirect chain and one end: where it lands, the guard's veto, an exception, a cycle, or too many redirects |
| CrawlSeed.GuardDecides | src/url_crawler/crawler.py:129-135 | If a url of the chain within the limit is turned down by the guard, that rejection is how the chain ends |
| CrawlTheorems.DrainedIsClosed | src/url_crawler/crawler.py:137-163 | A crawl that drained its frontier without stopping early has reported, for every url that a reported one redirects or links to, in scope and allowed, a page with the same canonical key |
| CrawlTheorems.ReportedIsReachable | src/url_crawler/crawler.py:195-234 | Every reported page is reachable from the seed through redirects and links of reported urls |
| CrawlTheorems.ReportedOnce | src/url_crawler/frontier.py:14-28 | No two reported pages share a canonical key |
| CrawlTheorems.ReportedAsFetched | src/url_crawler/crawler.py:195-223 | Every reported page carries what its url answered: the error, the one target of a redirect or none, or all links of the body; an exception is reported as internal |
| CrawlTheorems.TakenAsFound | src/url_crawler/frontier.py:14-31 | Urls are taken in the order they were found and none is lost |
| CrawlTheorems.WithinConcurrency | src/url_crawler/crawler.py:137-148 | No more than `concurrency` fetches are awaited at once |
| CrawlTally.StatsAreTallies | src/url_crawler/crawler.py:195-234 | At every point of every run each counter is a total over the reported pages: fetched, failed by kind, redirects, links, pages without links, retries; and every followed link is a url found or a counted duplicate |
| CrawlTheorems.WithinBudget | src/url_crawler/crawler.py:165-183 | At every point of every run, under every interleaving: pages_total = reported = claimed - in flight, at most `max_pages` or the pages of the seed chain, whichever is more |
| CrawlTheorems.RunKeepsLive | src/url_crawler/crawler.py:137-217 | Every interleaving of the workers keeps the crawl invariant and the exactness of the fuse |
| CrawlTheorems.SettleKeepsFuse | src/url_crawler/crawler.py:236-258 | The crawl is aborted exactly when the completions hold `failure_fuse` counting errors with no fetched page between them, and the reason names exactly that number |
| CrawlTheorems.TrippedByOne | src/url_crawler/crawler.py:236-245 | One more completion trips the fuse exactly when it brings the running count to the limit: the counter is a faithful summary of the whole history |
| CrawlTheorems.StoppingIsFinal | src/url_crawler/crawler.py:165-177 | After the crawl begins to stop nothing more is claimed, and an abort and its reason stay |
| CrawlTheorems.RunsAreShort | src/url_crawler/crawler.py:150-163 | On a finite key universe every interleaving ends within two steps per key |
| CrawlTheorems.NeverStuck | src/url_crawler/crawler.py:137-163 | While work is unfinished some worker can take a step |
| CrawlTheorems.CompleteDescends | src/url_crawler/crawler.py:150-183 | Each completion lowers the termination measure, for a finite site and for a page budget alike |
| CrawlInvariants.SettleKeepsInv | src/url_crawler/crawler.py:195-217 | Handling an answer, or the exception it caused, keeps the invariant and reports the url exactly once |
| CrawlInvariants.TakeKeepsInv | src/url_crawler/crawler.py:165-177 | Dequeuing a url keeps the invariant, and no url is dequeued twice |
| CrawlSeed.SeedOpens | src/url_crawler/crawler.py:99-101 | After the seed chain and its last page the workers start in a state that satisfies the invariant, with the claims counted as the pages |
| Crawlers.Frontier.Add | src/url_crawler/frontier.py:14-21 | Queues a url exactly when its key is new and counts it as a duplicate otherwise |
| Crawlers.Frontier.MarkSeen | src/url_crawler/frontier.py:23-28 | Marks a key seen and says whether it was new, without queueing |
| Crawlers.Crawler.Handle | src/url_crawler/crawler.py:195-217 | The in-place handler does to the counters, the reporter and the frontier what the step of the model does |
| Crawlers.Crawler.CheckFuse | src/url_crawler/crawler.py:236-245 | The in-place fuse does what the step of the model does |
| Crawlers.Crawler.RunWorkers | src/url_crawler/crawler.py:137-163 | Workers in any order perform a run of the model, which drains the frontier and terminates unless cancelled |
| Crawlers.Crawler.FetchSeed | src/url_crawler/crawler.py:129-135 | Asks the guard first: a url it turns down is not fetched |
| Crawlers.Crawler.FollowSeedRedirects | src/url_crawler/crawler.py:106-135 | Walks the redirect chain to its end: the guard's veto, an exception, a cycle, the hop limit, or a page that redirects no further; every url it fetched or reported passed the guard, and what it reported are the hops |
| Crawlers.Crawler.Run | src/url_crawler/crawler.py:82-104 | Raises a seed error with the message of the chain's end, of a failed fetch or of robots.txt, exactly then, and without reporting or fetching a vetoed url; at any point a crawl is cancelled it is sound and its counters tally; one that finishes is also closed unless aborted or out of budget |
| DotSegments.RemoveDotSegments | src/url_crawler/urls.py:52-64 | The loop computes the resolved path, which on every absolute path is what the buffer rewriting of RFC 3986, section 5.2.4 gives |
| DotSegments.ResolvedIsRewrite | src/url_crawler/urls.py:52-64 | Stack fold and buffer rewriting agree on every absolute path |
| DotSegments.ResolvedIsClean | src/url_crawler/urls.py:52-64 | The result is absolute, has no dot segment and resolves to itself |
| Query.CanonicalQueryIffSameByKey | src/url_crawler/urls.py:90-92 | Two queries have the same sorted form exactly when, for every key, their parameters with that key agree in order |
| Query.StableSortIsStable | src/url_crawler/urls.py:90-92 | The sort is ordered by key, a permutation, and keeps the order within each key |
| Query.LessEqIff | src/url_crawler/urls.py:90-92 | Keys are ordered by their first difference, a prefix before what it begins |
| Query.KeyEndsAtEquals | src/url_crawler/urls.py:90-92 | A key is what comes before the first `=`, or everything |
| StrayEscapes.CanonicalEscapesKeepsOctetsIff | src/url_crawler/urls.py:95-101 | The fold keeps the percent-decoded octets exactly when no percent sign that starts no escape stands before text whose fold would complete one |
| StrayEscapes.WellFormedHasNoStrayEscape | src/url_crawler/urls.py:95-101 | Well-formed escapes meet that condition |
| StrayEscapes.StrayEscapesCollide | src/url_crawler/urls.py:95-101 | Without it octets can differ: `/%%33D` and `/%3D` have one canonical form |
| Escapes.CanonicalEscapesIdempotentIff | src/url_crawler/urls.py:95-101 | Folding twice is folding once exactly when no stray percent sign stands where the first fold would complete an escape |
| Escapes.WellFormedHasNoNewEscape | src/url_crawler/urls.py:95-101 | Well-formed escapes meet that condition |
| Escapes.CanonicalEscapesNotIdempotent | src/url_crawler/urls.py:95-101 | `%%341` gives `%41`, which gives `A` |
| MarkedReadings.SameFormIff | src/url_crawler/urls.py:95-101 | Texts without stray escapes have one canonical form exactly when they read alike, octet by octet, with each reserved character of RFC 3986, section 2.2 apart from its escape and unreserved escapes read as their characters |
| MarkedReadings.CanonicalKeepsMarkedIff | src/url_crawler/urls.py:95-101 | The canonical form keeps that reading exactly without stray escapes |
| MarkedReadings.ApartIff | src/url_crawler/urls.py:13-15 | A character is kept apart from its escape exactly if it is the percent sign or a reserved character that may stand there; brackets, `#` and, in a path, `?` are merged with theirs |
| Escapes.Utf8ReadsBack | src/url_crawler/urls.py:95-96 | The octets quoting writes for a character are its UTF-8 encoding: they read back as it |
| CanonicalKeys.CanonicalCommutesWithSplit | src/url_crawler/urls.py:82-97 | Folding commutes with splitting at `/`, `&` and `=` |
| CanonicalKeys.CanonicalKeyIdempotentIff | src/url_crawler/urls.py:82-87 | The key of a key is itself exactly when path and query reveal no new escape and folding keeps the order of the query's keys: of two keys in order, the folded ones are in order |
| CanonicalKeys.CanonicalKeyIdempotentOnPlainKeys | src/url_crawler/urls.py:82-87 | So it is on well-formed urls whose query keys the fold leaves alone |
| CanonicalKeys.CanonicalKeyNotIdempotent | src/url_crawler/urls.py:82-87 | Sorting before folding: `?%62=1&a=2` has the key `?b=1&a=2`, which has the key `?a=2&b=1` |
| KeyOrder.OrderIsKeptIff | src/url_crawler/urls.py:90-92 | For any reading of keys (raw, folded or decoded): sorting keeps the given order of the parameters of each key exactly when every two parameters that read as one key come in the order of their raw keys |
| KeySoundness.EqualKeysIff | src/url_crawler/urls.py:82-101 | Without stray escapes, two urls have one key if and only if they have one scheme and authority, their paths read alike and their parameters, in key order, read alike: equivalent spellings are merged, and urls that differ in a reserved character are not |
| KeySoundness.EqualKeysAgree | src/url_crawler/urls.py:82-101 | Such urls have the same path segments and, in key order, the same parameters and keys after percent-decoding |
| KeySoundness.EqualKeysAgreeByKey | src/url_crawler/urls.py:82-101 | Where sorting keeps the order, each folded key also has the same parameters in the same order in both |
| KeySoundness.EqualKeysAgreeByDecodedKey | src/url_crawler/urls.py:82-101 | So does each percent-decoded key |
| KeySoundness.PlainKeysAreInOrder | src/url_crawler/urls.py:90-92 | Query keys that folding leaves alone meet the condition |
| KeySoundness.OrderIsLost | src/url_crawler/urls.py:82-92 | Whenever a query fails the condition, the sorted query is another url with the same key whose parameters of some key come in another order |
| KeySoundness.SpellingsLoseOrder | src/url_crawler/urls.py:82-92 | One such pair: urls that differ only in the queries `b=2&%62=1` and `%62=1&b=2` have one key |
| Fetcher.ReadBounded | src/url_crawler/fetcher.py:62-96 | Whatever the chunks: body = take(max, decode(take(max, raw))), flagged exactly when the raw or that decoded stream exceeds the cap, an error exactly when decoding is damaged before the cap; each content encoding has its decoder, and the raw-deflate fallback is chosen by the first chunk alone |
| Fetcher.Extend | src/url_crawler/fetcher.py:87-95 | One turn of the loop: the length passed to the inflater is at least 1, and input it leaves unread is dropped only when the cap is already passed |
| Fetcher.Inflater.Inflate | src/url_crawler/fetcher.py:44-59 | Bounded output of the stream fed so far, with the fallback decoder after a damaged first chunk |
| Fetcher.CapReached | src/url_crawler/fetcher.py:94-95 | Once a cap is passed, the rest of the stream cannot change the result |
| RobotsMatching.AgreesIffAgreeable | src/url_crawler/robots.py:146-151 | For every target: the joined patterns and the wildcards of RFC 9309, section 2.2.3 agree on all rules if and only if the target has no newline, or only a final one right after a star |
| RobotsMatching.RuleBeforeNewline | src/url_crawler/robots.py:146-151 | Rule by rule, on a target whose only newline is the last character: the pattern accepts what the wildcards accept, and for an anchored rule also what they accept without that newline |
| RobotsMatching.DisagreeOn | src/url_crawler/robots.py:146-151 | On every other target some rule tells the two apart; the lemma names it |
| RobotsMatching.DollarSkipsNewline | src/url_crawler/robots.py:146-151 | The rule `/a$` matches `/a` followed by a newline, which the standard refuses |
| RobotsMatching.NewlineStopsTheDot | src/url_crawler/robots.py:146-151 | A rule with a star between `/` and `b` misses a target with a newline there, which the standard accepts |
| RobotsMatching.AllowsIffNotRefused | src/url_crawler/robots.py:74-81 | The longest matching rule decides and Allow wins a tie, stated over the set of rules |
| RobotsMatching.OrderAndRepetitionAreIrrelevant | src/url_crawler/robots.py:74-81 | Neither the order of the rules nor repeated rules change a decision |
| RobotsMatching.EmptyRuleChangesNothing | src/url_crawler/robots.py:117-120 | An empty rule, wherever it is added, changes no decision |
| RobotsLines.LinesDecide | src/url_crawler/robots.py:74-81 | Told by the lines of a group: a target is refused exactly when a matching Disallow line that is not empty is longer, percent-decoded, than every matching Allow line |
| RobotsLines.LineSays | src/url_crawler/robots.py:111-114 | A line reads as its field whatever blanks, letter case and comment surround it |
| RobotsLines.LineIsEmptyIff | src/url_crawler/robots.py:111-114 | A line carries no field exactly when it has no colon before a comment |
| RobotsLines.TokenSays | src/url_crawler/robots.py:131-133 | The agent's token is its name before any slash, without blanks and in lower case |
| RobotsGroups.ParseGroups | src/url_crawler/robots.py:84-108 | The loop gives one group for each run of user-agent lines, and each line to the group of its run |
| RobotsGroups.NearestRun | src/url_crawler/robots.py:84-108 | A line belongs to the group opened by the nearest run of user-agent lines before it |
| RobotsGroups.PrintThenRead | src/url_crawler/robots.py:84-114 | Reading a printed list of groups gives those groups back |
| RobotsGroups.SelectGroup | src/url_crawler/robots.py:131-143 | One pass finds the earliest group with the longest matching agent token, else the first `*` group |
| RobotsGroups.ChoiceIsUnique | src/url_crawler/robots.py:131-143 | That description determines the choice |

## Left out

- HTTP, sockets, timeouts, httpx exception classes and header parsing: a fetch is an oracle.
- HTML parsing (`parser.py`): extracted links are an oracle that may raise.
- `urlsplit`, `urlunsplit`, `urljoin` and the rest of `normalize`: urls are taken apart already, and scope and keys are
  functions in the crawl model.
- `re` and zlib: rules are their literal and wildcard pieces, decoders are the functions described above.
- Lower-casing beyond ASCII in robots.txt, and `unquote` and `float` there, which are parameters.
- Postgres locking and isolation levels, and the difference between the database clock and the workers' clocks.
- A `BrokenPipeError` out of a reporter, which ends the whole crawl.
- Where inside a step a task is cancelled: a crawl is cancelled between two turns of its workers, a flush between two of its exchanges.
- Crawlers.Crawler.Run: without a cancellation it asks for a page budget or a finite set of keys, since the crawl of an endless site without a budget does not end.
- Paging.PagingLosesNothing: says nothing across a second claim, which deletes the pages and starts their numbers again.
- `run_once`, `run_forever` and `_cancel_on_stop` have no method of their own: their calls are the steps `Claim`, `Reap` and `Stop` of the state machine.
- The constructor of `RobotsTxt`, which only composes parsing and selection.
- The event stream, the CLI, the other reporters, logging, migrations and the benchmark: presentation and plumbing.
- `retry.py`, `config.py`, `settings.py`, `schemas.py`, `hostcheck.py`: range checks, tables and network policy.
