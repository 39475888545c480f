/** `Frontier` and `Crawler`: the objects, each method tied to the step it performs on the crawl's state. */
module Crawlers {
  import opened Options
  import opened CrawlModel
  import opened CrawlInvariants
  import opened CrawlTheorems
  import opened CrawlSeed
  import opened CrawlTally

  class Frontier {
    const key: Url -> Key
    var queue: seq<Url>
    var seen: set<Key>
    var duplicatesDropped: nat
    var unfinished: nat

    constructor (key: Url -> Key)
      ensures this.key == key && queue == [] && seen == {} && duplicatesDropped == 0 && unfinished == 0
    {
      this.key := key;
      queue, seen, duplicatesDropped, unfinished := [], {}, 0, 0;
    }

    method Add(url: Url) returns (added: bool)
      modifies this
      ensures added == (key(url) !in old(seen))
      ensures seen == old(seen) + {key(url)}
      ensures queue == old(queue) + if added then [url] else []
      ensures unfinished == old(unfinished) + if added then 1 else 0
      ensures duplicatesDropped == old(duplicatesDropped) + if added then 0 else 1
    {
      var k := key(url);
      if k in seen {
        duplicatesDropped := duplicatesDropped + 1;
        return false;
      }
      seen := seen + {k};
      queue := queue + [url];
      unfinished := unfinished + 1;
      return true;
    }

    method MarkSeen(url: Url) returns (added: bool)
      modifies this`seen
      ensures added == (key(url) !in old(seen)) && seen == old(seen) + {key(url)}
    {
      var k := key(url);
      if k in seen {
        return false;
      }
      seen := seen + {k};
      return true;
    }

    method Get() returns (url: Url)
      requires |queue| > 0
      modifies this`queue
      ensures [url] + queue == old(queue)
    {
      url := queue[0];
      queue := queue[1..];
    }

    method TaskDone()
      requires unfinished > 0
      modifies this`unfinished
      ensures unfinished == old(unfinished) - 1
    {
      unfinished := unfinished - 1;
    }
  }

  /** `SeedError` carries the exit code; `Cancelled` when the task was cancelled before the frontier was drained. */
  datatype Outcome =
    | Finished(pages: nat, aborted: bool, reason: Option<nat>)
    | SeedError(message: string, exitCode: nat)
    | Exception
    | Cancelled

  class Crawler {
    const site: Site
    const config: Config
    const frontier: Frontier
    var anchor: Option<Url>
    var claimed: nat
    var consecutiveFailures: nat
    var stopping: bool
    var aborted: bool
    var reason: Option<nat>
    var stats: Stats
    var reported: seq<PageResult>
    var inFlight: set<Url>
    ghost var visited: seq<Url>
    ghost var hops: nat
    ghost var skipped: set<Url>
    /** The urls of the seed chain in the order they were fetched. */
    ghost var seedFetches: seq<Url>

    ghost function View(): Crawl
      reads this, frontier
    {
      Crawl(frontier.queue, frontier.seen, frontier.duplicatesDropped, frontier.unfinished, claimed,
            consecutiveFailures, stopping, aborted, reason, stats, reported, visited, hops, inFlight, skipped)
    }

    ghost predicate Valid()
      reads this
    {
      frontier.key == site.key && ValidConfig(config)
    }

    constructor (site: Site, config: Config)
      requires ValidConfig(config)
      ensures Valid() && View() == FRESH && anchor == None && seedFetches == [] && fresh(frontier)
      ensures this.site == site && this.config == config
    {
      this.site, this.config := site, config;
      frontier := new Frontier(site.key);
      anchor, claimed, consecutiveFailures, stopping, aborted, reason := None, 0, 0, false, false, None;
      stats, reported, inFlight, visited, hops, skipped, seedFetches := NO_STATS, [], {}, [], 0, {}, [];
    }

    method Enqueue(links: seq<Url>)
      requires Valid() && anchor.Some?
      modifies this, frontier
      ensures Valid() && anchor == old(anchor) && seedFetches == old(seedFetches)
      ensures View() == CrawlModel.Enqueue(site, anchor.value, old(View()), links)
    {
      for i := 0 to |links|
        invariant anchor == old(anchor) && anchor.Some? && seedFetches == old(seedFetches)
        invariant View() == AddLinks(site, anchor.value, old(View()), links[..i])
      {
        var link := links[i];
        assert links[..i + 1][..i] == links[..i];
        if site.inScope(anchor.value, link) && site.robotsAllow(anchor.value, link) {
          ghost var before := frontier.seen;
          var added := frontier.Add(link);
          assert !added ==> frontier.seen == before;
        }
      }
      assert links[..|links|] == links;
      stats := stats.(duplicatesDropped := frontier.duplicatesDropped);
    }

    method CheckFuse(error: FetchError)
      modifies this
      ensures anchor == old(anchor) && seedFetches == old(seedFetches)
              && View() == CrawlModel.CheckFuse(config, old(View()), error)
    {
      if aborted || !CountsTowardFuse(error) {
        return;
      }
      consecutiveFailures := consecutiveFailures + 1;
      if consecutiveFailures < config.failureFuse {
        return;
      }
      stopping := true;
      aborted := true;
      reason := Some(consecutiveFailures);
    }

    method Handle(url: Url, answer: Answer) returns (raised: bool)
      requires Valid() && anchor.Some?
      modifies this, frontier
      ensures Valid() && anchor == old(anchor) && seedFetches == old(seedFetches)
      ensures (View(), raised) == CrawlModel.Handle(site, anchor.value, config, old(View()), url, answer)
    {
      if answer.Raised? {
        return true;
      }
      if answer.Failed? {
        var error := answer.error;
        stats := stats.(retries := stats.retries + error.attempts - 1);
        stats := stats.(pagesFailed := stats.pagesFailed + multiset{error.kind});
        reported := reported + [PageResult(url, error.status, [], Some(error.kind))];
        assert View() == Report(Failure(old(View()), error), PageResult(url, error.status, [], Some(error.kind)));
        CheckFuse(error);
        return false;
      }
      var result := answer.result;
      stats := stats.(retries := stats.retries + result.attempts - 1);
      consecutiveFailures := 0;
      var links: seq<Url>;
      if IsRedirect(result.status) {
        var target := RedirectTarget(site, url, result);
        links := if target.Some? then [target.value] else [];
        stats := stats.(redirects := stats.redirects + 1);
      } else {
        var extracted := site.extract(result.body, url);
        if extracted.None? {
          return true;
        }
        links := extracted.value;
        stats := stats.(linksFound := stats.linksFound + |links|);
        if |links| == 0 {
          stats := stats.(pagesWithoutLinks := stats.pagesWithoutLinks + 1);
        }
      }
      stats := stats.(pagesOk := stats.pagesOk + 1);
      assert stats == CountPage(Retried(old(stats), result.attempts), result, links);
      reported := reported + [PageResult(url, Some(result.status), links, None)];
      assert LinksOf(site, url, result) == Some(links);
      assert View() == Report(Success(old(View()), result, links), PageResult(url, Some(result.status), links, None));
      Enqueue(links);
      return false;
    }

    /** `_process` up to its await: whether the url was claimed. */
    method Process(url: Url) returns (taken: bool)
      modifies this
      ensures anchor == old(anchor) && seedFetches == old(seedFetches)
      ensures taken == (!old(stopping) && (config.maxPages.Some? ==> old(claimed) < config.maxPages.value))
      ensures View() == if taken then old(View()).(claimed := old(claimed) + 1)
                        else old(View()).(stopping := true)
    {
      if stopping {
        return false;
      }
      if config.maxPages.Some? && claimed >= config.maxPages.value {
        stopping := true;
        return false;
      }
      claimed := claimed + 1;
      return true;
    }

    /** A worker's turn from `get()` to the await of its fetch, or to `task_done()` when the url is dropped. */
    method TakeNext()
      requires Valid() && |frontier.queue| > 0 && frontier.unfinished > 0
      modifies this, frontier
      ensures Valid() && anchor == old(anchor) && seedFetches == old(seedFetches) && View() == Take(config, old(View()))
    {
      ghost var before := View();
      var url := frontier.Get();
      visited := visited + [url];
      assert before.queue[0] == url && before.queue[1..] == frontier.queue;
      var taken := Process(url);
      if taken {
        inFlight := inFlight + {url};
      } else {
        skipped := skipped + {url};
        frontier.TaskDone();
      }
    }

    /** The rest of `_process`, with the exception handler around it. */
    method SettleAnswer(url: Url, answer: Answer)
      requires Valid() && anchor.Some? && answer == site.fetch(url)
      modifies this, frontier
      ensures Valid() && anchor == old(anchor) && seedFetches == old(seedFetches)
      ensures View() == Settle(site, anchor.value, config, old(View()), url)
    {
      var raised := Handle(url, answer);
      if raised {
        stats := stats.(pagesFailed := stats.pagesFailed + multiset{Internal});
        reported := reported + [PageResult(url, None, [], Some(Internal))];
      }
      inFlight := inFlight - {url};
    }

    /** A worker's turn from the answer to its fetch to `task_done()`. */
    method CompleteOne(url: Url)
      requires Valid() && anchor.Some? && frontier.unfinished > 0
      modifies this, frontier
      ensures Valid() && anchor == old(anchor) && seedFetches == old(seedFetches)
      ensures View() == Complete(site, anchor.value, config, old(View()), url)
    {
      var answer := site.fetch(url);
      SettleAnswer(url, answer);
      frontier.TaskDone();
    }

    /** A worker takes the next url. */
    method TakeTurn(ghost start: Url, ghost keys: Option<set<Key>>, ghost ends: bool)
      requires Valid() && anchor.Some? && Live(site, anchor.value, config, start, View())
      requires |frontier.queue| > 0 && |inFlight| < config.concurrency && frontier.unfinished > 0
      requires ends ==> MustEnd(site, config, keys, View())
      modifies this, frontier
      ensures Valid() && anchor == old(anchor) && seedFetches == old(seedFetches)
      ensures Step(site, anchor.value, config, old(View()), View()) && Live(site, anchor.value, config, start, View())
      ensures ends ==> MustEnd(site, config, keys, View()) && Descends(config, keys, old(View()), View())
    {
      TakeKeepsLive(site, anchor.value, config, start, View());
      if ends {
        TakeDescends(site, anchor.value, config, start, keys, View());
      }
      TakeNext();
    }

    /** A worker's fetch of `url` is answered. */
    method AnswerTurn(url: Url, ghost start: Url, ghost keys: Option<set<Key>>, ghost ends: bool)
      requires Valid() && anchor.Some? && Live(site, anchor.value, config, start, View())
      requires url in inFlight && frontier.unfinished > 0
      requires ends ==> MustEnd(site, config, keys, View())
      modifies this, frontier
      ensures Valid() && anchor == old(anchor) && seedFetches == old(seedFetches)
      ensures Step(site, anchor.value, config, old(View()), View()) && Live(site, anchor.value, config, start, View())
      ensures ends ==> MustEnd(site, config, keys, View()) && Descends(config, keys, old(View()), View())
    {
      CompleteKeepsLive(site, anchor.value, config, start, View(), url);
      if ends {
        CompleteDescends(site, anchor.value, config, start, keys, View(), url);
      }
      CompleteOne(url);
    }

    /** Any worker's next turn; which one is up to the scheduler. */
    method Turn(ghost start: Url, ghost keys: Option<set<Key>>, ghost ends: bool)
      requires Valid() && anchor.Some? && Live(site, anchor.value, config, start, View())
      requires frontier.unfinished > 0 && (ends ==> MustEnd(site, config, keys, View()))
      modifies this, frontier
      ensures Valid() && anchor == old(anchor) && seedFetches == old(seedFetches)
      ensures Step(site, anchor.value, config, old(View()), View()) && Live(site, anchor.value, config, start, View())
      ensures ends ==> MustEnd(site, config, keys, View()) && Descends(config, keys, old(View()), View())
    {
      var takeFirst := *;
      if |frontier.queue| > 0 && |inFlight| < config.concurrency && (takeFirst || inFlight == {}) {
        TakeTurn(start, keys, ends);
      } else {
        SomeoneWaits(site, anchor.value, config, start, View());
        var url :| url in inFlight;
        AnswerTurn(url, start, keys, ends);
      }
    }

    /**
     * The workers, in any order, until `join()` returns or the task is cancelled, which with `patience` happens after
     * that many turns: what they do is a run of the model. Left alone, the crawl ends because the site has finitely
     * many keys, or because its pages are budgeted.
     */
    method RunWorkers(ghost start: Url, ghost keys: Option<set<Key>>, patience: Option<nat>)
      returns (ghost run: seq<Crawl>)
      requires Valid() && IsGood(start)
      requires patience.None? ==> MustEnd(site, config, keys, View())
      modifies this, frontier
      ensures Valid() && anchor == old(anchor) && seedFetches == old(seedFetches) && IsGood(start)
      ensures Ran(run, old(View()))
      ensures patience.None? ==> frontier.unfinished == 0
    {
      run := [View()];
      var turns := 0;
      while frontier.unfinished > 0 && (patience.None? || turns < patience.value)
        invariant Valid() && anchor == old(anchor) && seedFetches == old(seedFetches)
        invariant Ran(run, old(View()))
        invariant Live(site, anchor.value, config, start, View())
        invariant patience.None? ==> MustEnd(site, config, keys, View())
        decreases if patience.Some? then patience.value - turns else 0,
                  Steps(keys, View()), ClaimsLeft(config, View()), |inFlight|, |frontier.queue|
      {
        Turn(start, keys, patience.None?);
        OneMoreStep(site, anchor.value, config, run, View());
        run := run + [View()];
        turns := turns + 1;
      }
      RunStaysGood(site, anchor.value, config, run);
    }

    /** The steps of the model that lead from `first` to here. */
    ghost predicate Ran(run: seq<Crawl>, first: Crawl)
      reads this, frontier
    {
      anchor.Some? && IsRun(site, anchor.value, config, run) && run[0] == first && run[|run| - 1] == View()
    }

    /** The workers may run, every page so far is counted, and every url behind the chain is one to follow. */
    ghost predicate IsGood(start: Url)
      reads this, frontier
    {
      && anchor.Some? && Live(site, anchor.value, config, start, View())
      && Tallied(site, View()) && NoLinkLost(site, anchor.value, View()) && KeepsToRules(site, anchor.value, View())
    }

    /** Reports one hop of the chain and marks its target seen, unless it already was. */
    method ReportHop(url: Url, result: FetchResult, target: Url) returns (unseen: bool)
      requires Valid()
      modifies this, frontier
      ensures Valid() && anchor == old(anchor) && seedFetches == old(seedFetches)
              && unseen == (site.key(target) !in old(frontier.seen))
      ensures unseen ==> View() == Hop(site, old(View()), url, result, target)
      ensures reported == old(reported) + [PageResult(url, Some(result.status), [target], None)]
    {
      stats := stats.(retries := stats.retries + result.attempts - 1);
      stats := stats.(pagesOk := stats.pagesOk + 1);
      stats := stats.(redirects := stats.redirects + 1);
      reported := reported + [PageResult(url, Some(result.status), [target], None)];
      unseen := frontier.MarkSeen(target);
      visited, hops := visited + [target], hops + 1;
    }

    /** The chain from `seed` has come to `url`, whose page is not reported yet. */
    ghost predicate OnChain(seed: Url, url: Url)
      reads this, frontier
    {
      Valid() && Chain(site, seed, View()) && Last(View()) == url && Tallied(site, View()) && Guarded()
    }

    /** The guard let every url pass that the chain fetched or reported. */
    ghost predicate Guarded()
      reads this
    {
      && (forall u | u in seedFetches :: site.seedGuard(u).None?)
      && (forall i | 0 <= i < |reported| :: site.seedGuard(reported[i].url).None?)
    }

    /** The reported pages are hops of `chain`. */
    ghost predicate Reports(chain: seq<Url>)
      reads this
    {
      |reported| <= |chain| && forall i | 0 <= i < |reported| :: reported[i].url == chain[i]
    }

    /** `_fetch_seed`: a url the guard turns down is not fetched. */
    method FetchSeed(ghost seed: Url, url: Url) returns (landing: Landing)
      requires OnChain(seed, url)
      modifies this`seedFetches
      ensures landing == Visit(site, url) && OnChain(seed, url) && Reports(visited)
      ensures seedFetches == old(seedFetches) + if site.seedGuard(url).None? then [url] else []
    {
      var reason := site.seedGuard(url);
      if reason.Some? {
        return Rejected("seed rejected: " + reason.value);
      }
      seedFetches := seedFetches + [url];
      var answer := site.fetch(url);
      return if answer.Raised? then Crashed else Landed(url, answer);
    }

    /** The seed itself is seen and fetched first. */
    method BeginChain(seed: Url)
      requires Valid() && View() == FRESH && seedFetches == []
      modifies this, frontier
      ensures OnChain(seed, seed) && anchor == old(anchor) && seedFetches == old(seedFetches)
      ensures visited == [seed] && reported == []
    {
      var added := frontier.MarkSeen(seed);
      visited := [seed];
      FreshIsTallied(site, View());
    }

    /** One more hop of the chain, unless its target was seen before. */
    method FollowHop(ghost seed: Url, url: Url, result: FetchResult, target: Url) returns (unseen: bool)
      requires OnChain(seed, url) && Visit(site, url) == Landed(url, Fetched(result))
      requires RedirectTarget(site, url, result) == Some(target)
      modifies this, frontier
      ensures Valid() && anchor == old(anchor) && seedFetches == old(seedFetches) && Guarded() && Reports(old(visited))
      ensures unseen ==> OnChain(seed, target) && visited == old(visited) + [target]
      ensures !unseen ==> site.key(target) in KeysOf(site, old(visited))
    {
      ghost var before := View();
      assert Found(before) == before.visited;
      unseen := ReportHop(url, result, target);
      if unseen {
        HopKeepsChain(site, seed, before, result, target);
        HopTallies(site, before, url, result, target);
      }
    }

    /** One more hop, and the fetch of its target; the landing is a rejection when the target was seen before. */
    method HopTo(ghost seed: Url, url: Url, result: FetchResult, target: Url) returns (unseen: bool, landing: Landing)
      requires OnChain(seed, url) && Visit(site, url) == Landed(url, Fetched(result))
      requires RedirectTarget(site, url, result) == Some(target)
      modifies this, frontier
      ensures Valid() && anchor == old(anchor)
      ensures if unseen then OnChain(seed, target) && Reports(visited)
              else Guarded() && Reports(old(visited))
      ensures if unseen then visited == old(visited) + [target] && landing == Visit(site, target)
              else site.key(target) in KeysOf(site, old(visited))
                   && landing == Rejected("seed redirect cycle at " + target)
    {
      unseen := FollowHop(seed, url, result, target);
      if !unseen {
        return false, Rejected("seed redirect cycle at " + target);
      }
      landing := FetchSeed(seed, target);
    }

    /**
     * The chain from `seed` and where it ends. Nothing is fetched or reported that the guard turns down; the pages
     * reported on the way are the hops of the chain.
     */
    method FollowSeedRedirects(seed: Url) returns (landing: Landing, ghost chain: seq<Url>)
      requires Valid() && View() == FRESH && seedFetches == []
      modifies this, frontier
      ensures Valid() && anchor == old(anchor)
      ensures Ends(site, seed, config.maxSeedRedirects, chain, landing) && Guarded() && Reports(chain)
      ensures landing.Landed? ==> OnChain(seed, landing.url) && chain == visited
    {
      BeginChain(seed);
      var url := seed;
      landing := FetchSeed(seed, url);
      chain := visited;
      for hopsLeft := config.maxSeedRedirects downto 0
        invariant OnChain(seed, url) && anchor == old(anchor) && landing == Visit(site, url)
        invariant chain == visited && |chain| == config.maxSeedRedirects - hopsLeft + 1 && Reports(chain)
      {
        var target := TargetOf(site, landing);
        if target.None? {
          break;
        }
        var unseen;
        unseen, landing := HopTo(seed, url, landing.answer.result, target.value);
        if !unseen {
          EndsRejected(site, seed, config.maxSeedRedirects, chain, target.value, landing);
          return;
        }
        url := target.value;
        chain := visited;
      }
      var target := TargetOf(site, landing);
      if target.Some? {
        landing := Rejected("Seed redirected too many times");
        EndsRejected(site, seed, config.maxSeedRedirects, chain, target.value, landing);
      } else {
        EndsHere(site, seed, config.maxSeedRedirects, chain, landing);
      }
    }

    /** What a crawl guarantees at any point. */
    ghost predicate HoldsUp(start: Url)
      reads this, frontier
    {
      IsGood(start) && IsSound(site, anchor.value, config, start, View())
    }

    /**
     * What it guarantees once it ran to its end: it followed every link, unless it was aborted or its budget is spent.
     */
    ghost predicate Covers(start: Url)
      reads this, frontier
    {
      && HoldsUp(start) && frontier.unfinished == 0 && inFlight == {}
      && (!stopping ==> Closed(site, anchor.value, View()))
      && (!aborted && (config.maxPages.None? || |reported| < config.maxPages.value) ==> !stopping)
    }

    lemma ItHoldsUp(start: Url)
      requires IsGood(start)
      ensures HoldsUp(start)
      ensures frontier.unfinished == 0 ==> Covers(start)
    {
      LiveIsSound(site, anchor.value, config, start, View());
      if frontier.unfinished == 0 && !stopping {
        DrainedIsClosed(site, anchor.value, config, start, View());
      }
    }

    /** The outcome tells how the chain from `start` ended, or else what became of the crawl it opened. */
    ghost predicate EndsWith(landing: Landing, start: Url, patience: Option<nat>, outcome: Outcome)
      reads this, frontier
    {
      match SeedMessage(site, landing)
      case Some(message) => outcome == SeedError(message, 3) && Guarded()
      case None =>
        match outcome
        case SeedError(_, _) => false
        case Exception => landing.Crashed? || Unreadable(site, landing.url)
        case Finished(pages, stopped, why) =>
          && landing.Landed? && !Unreadable(site, landing.url) && anchor == Some(landing.url) && Covers(start)
          && pages == |reported| && stopped == aborted && why == reason
        case Cancelled =>
          && landing.Landed? && !Unreadable(site, landing.url) && anchor == Some(landing.url) && HoldsUp(start)
          && patience.Some?
    }

    /**
     * A crawl from its seed to its end, or to its cancellation after `patience` turns of the workers. Without a
     * cancellation it needs a reason to end: finitely many keys, or a page budget.
     */
    method Run(seed: string, ghost keys: Option<set<Key>>, patience: Option<nat>)
      returns (outcome: Outcome, ghost chain: seq<Url>, ghost landing: Landing)
      requires Valid() && View() == FRESH && seedFetches == []
      requires keys.Some? ==> FiniteSite(site, keys.value)
                              && forall url | site.normalize(seed) == Some(url) :: site.key(url) in keys.value
      requires patience.None? && keys.None? ==> config.maxPages.Some?
      modifies this, frontier
      ensures site.normalize(seed).None? ==> outcome == SeedError("Invalid seed URL: " + seed, 2) && reported == []
      ensures site.normalize(seed).Some? ==>
                && Ends(site, site.normalize(seed).value, config.maxSeedRedirects, chain, landing)
                && EndsWith(landing, site.normalize(seed).value, patience, outcome)
      ensures forall u | u in seedFetches :: site.seedGuard(u).None?
    {
      var start := site.normalize(seed);
      if start.None? {
        return SeedError("Invalid seed URL: " + seed, 2), [], Crashed;
      }
      var landed: Landing;
      landed, chain := FollowSeedRedirects(start.value);
      landing := landed;
      outcome := CrawlFrom(landed, start.value, keys, patience);
    }

    /** The scope is anchored where the chain landed. */
    method SetAnchor(ghost start: Url, url: Url)
      requires OnChain(start, url)
      modifies this`anchor
      ensures OnChain(start, url) && anchor == Some(url)
    {
      anchor := Some(url);
    }

    /** What follows the chain: a `SeedError`, an exception, or the crawl. */
    method CrawlFrom(landing: Landing, ghost start: Url, ghost keys: Option<set<Key>>, patience: Option<nat>)
      returns (outcome: Outcome)
      requires Valid() && Guarded() && (landing.Landed? ==> OnChain(start, landing.url))
      requires landing.Landed? ==> landing.answer == site.fetch(landing.url) && !landing.answer.Raised?
      requires keys.Some? ==> FiniteSite(site, keys.value) && site.key(start) in keys.value
      requires patience.None? && keys.None? ==> config.maxPages.Some?
      modifies this, frontier
      ensures EndsWith(landing, start, patience, outcome) && seedFetches == old(seedFetches)
    {
      if landing.Rejected? {
        return SeedError(landing.message, 3);
      }
      if landing.Crashed? {
        return Exception;
      }
      var url, answer := landing.url, landing.answer;
      if answer.Failed? {
        var error := answer.error;
        return SeedError("Could not fetch seed " + url + ": " + KindText(error.kind) + " " + error.message, 3);
      }
      SetAnchor(start, url);
      if !site.robotsAllow(url, url) {
        return SeedError("robots.txt disallows the seed URL; use --ignore-robots to override", 3);
      }
      outcome := CrawlOn(url, answer, start, keys, patience);
    }

    /** From the last page of the chain on: it is handled, then the workers run. */
    method CrawlOn(url: Url, answer: Answer, ghost start: Url, ghost keys: Option<set<Key>>, patience: Option<nat>)
      returns (outcome: Outcome)
      requires OnChain(start, url) && anchor == Some(url) && answer == site.fetch(url) && !answer.Raised?
      requires SeedMessage(site, Landed(url, answer)).None?
      requires keys.Some? ==> FiniteSite(site, keys.value) && site.key(start) in keys.value
      requires patience.None? && keys.None? ==> config.maxPages.Some?
      modifies this, frontier
      ensures EndsWith(Landed(url, answer), start, patience, outcome) && seedFetches == old(seedFetches)
    {
      var started := StartFrom(url, answer, start, keys, patience.None?);
      if !started {
        return Exception;
      }
      ghost var run := RunWorkers(start, keys, patience);
      ItHoldsUp(start);
      if frontier.unfinished > 0 {
        return Cancelled;
      }
      return Finished(PagesTotal(stats), aborted, reason);
    }

    /** Handles the last page of the seed chain; false when that raised. */
    method StartFrom(url: Url, answer: Answer, ghost start: Url, ghost keys: Option<set<Key>>, ghost ends: bool)
      returns (started: bool)
      requires OnChain(start, url) && anchor == Some(url) && answer == site.fetch(url) && !answer.Raised?
      requires keys.Some? ==> FiniteSite(site, keys.value) && site.key(start) in keys.value
      requires ends && keys.None? ==> config.maxPages.Some?
      modifies this, frontier
      ensures Valid() && anchor == old(anchor) && seedFetches == old(seedFetches)
      ensures started == !Unreadable(site, url)
      ensures started ==> IsGood(start) && (ends ==> MustEnd(site, config, keys, View()))
    {
      ghost var chain := View();
      started := HandleSeed(url, answer);
      if started {
        SeedIsLive(site, config, start, url, chain);
        StartIsTallied(site, config, start, url, chain);
        StartKeepsToRules(site, config, start, url, chain);
        if ends {
          SeedOpens(site, config, start, url, chain, keys);
        }
      }
    }

    method HandleSeed(url: Url, answer: Answer) returns (started: bool)
      requires Valid() && anchor == Some(url)
      modifies this, frontier
      ensures Valid() && anchor == old(anchor) && seedFetches == old(seedFetches)
      ensures started == !CrawlModel.Handle(site, url, config, old(View()).(inFlight := {url}), url, answer).1
      ensures started && answer == site.fetch(url) ==> View() == Started(site, config, url, old(View()))
    {
      inFlight := {url};
      var raised := Handle(url, answer);
      if raised {
        return false;
      }
      inFlight := {};
      claimed := PagesTotal(stats);
      return true;
    }
  }
}
