/**
 * A session as a sequence of scrape requests handled one after another. A
 * failed request leaves the state as it was (its error is shown to the user
 * and nothing is written), so the state after the session is determined by
 * the successful requests alone.
 */
module Session {
  import opened Wrappers
  import opened Clock
  import opened ScraperCache
  import opened DataHandler
  import opened WebScraper

  /** One "Start" press: the URL, the collaborator's answer, and the clock when the cache is updated. */
  datatype Request = Request(url: string, result: ScrapeResult, now: Instant)

  /**
   * Handles the requests in order, starting from `s`. A rejected answer is
   * caught and reported, and handling continues from the unchanged state.
   * Cache entries are never deleted, and a session in which every answer is
   * rejected changes nothing.
   */
  function Run(s: State, reqs: seq<Request>): (r: State)
    ensures s.cache.Keys <= r.cache.Keys
    ensures (forall i :: 0 <= i < |reqs| ==> !HasContext(reqs[i].result)) ==> r == s
    decreases |reqs|
  {
    if |reqs| == 0 then s
    else Run(Scrape(s, reqs[0].url, reqs[0].result, reqs[0].now).next, reqs[1..])
  }

  /** The context of the last request whose answer was accepted, if any. */
  function LastContext(reqs: seq<Request>): Option<Table>
    decreases |reqs|
  {
    if |reqs| == 0 then None
    else if HasContext(reqs[|reqs| - 1].result) then Some(reqs[|reqs| - 1].result.context.value)
    else LastContext(reqs[..|reqs| - 1])
  }

  /** The clock reading of the last accepted request for `url`, if any. */
  function LastScrape(reqs: seq<Request>, url: string): Option<Instant>
    decreases |reqs|
  {
    if |reqs| == 0 then None
    else if reqs[|reqs| - 1].url == url && HasContext(reqs[|reqs| - 1].result) then Some(reqs[|reqs| - 1].now)
    else LastScrape(reqs[..|reqs| - 1], url)
  }

  /** Handling one more request continues from the state the earlier ones left. */
  lemma {:induction false} RunSnoc(s: State, reqs: seq<Request>, r: Request)
    ensures Run(s, reqs + [r]) == Scrape(Run(s, reqs), r.url, r.result, r.now).next
    decreases |reqs|
  {
    if |reqs| == 0 {
      assert reqs + [r] == [r];
    } else {
      var s1 := Scrape(s, reqs[0].url, reqs[0].result, reqs[0].now).next;
      assert (reqs + [r])[1..] == reqs[1..] + [r];
      RunSnoc(s1, reqs[1..], r);
    }
  }

  /**
   * The table after a session holds exactly the rows of the last accepted
   * answer; when no answer was accepted, the file is as it was before.
   */
  lemma {:induction false} RunFile(s: State, reqs: seq<Request>)
    ensures LastContext(reqs).Some? ==> Run(s, reqs).file == Some(LastContext(reqs).value)
    ensures LastContext(reqs).None? ==> Run(s, reqs).file == s.file
    decreases |reqs|
  {
    if |reqs| > 0 {
      var init, r := reqs[..|reqs| - 1], reqs[|reqs| - 1];
      assert reqs == init + [r];
      RunSnoc(s, init, r);
      RunFile(s, init);
    }
  }

  /**
   * After a session, `url` has a cache entry exactly when it had one before or
   * some request for it was accepted; the entry is the truncated clock of the
   * last accepted request for it, and otherwise the entry it had before.
   */
  lemma {:induction false} RunCache(s: State, reqs: seq<Request>, url: string)
    ensures url in Run(s, reqs).cache <==> url in s.cache || LastScrape(reqs, url).Some?
    ensures LastScrape(reqs, url).Some? ==>
              Run(s, reqs).cache[url] == ToSeconds(LastScrape(reqs, url).value)
    ensures LastScrape(reqs, url).None? && url in s.cache ==>
              Run(s, reqs).cache[url] == s.cache[url]
    decreases |reqs|
  {
    if |reqs| > 0 {
      var init, r := reqs[..|reqs| - 1], reqs[|reqs| - 1];
      assert reqs == init + [r];
      RunSnoc(s, init, r);
      RunCache(s, init, url);
    }
  }

  /** A URL that was never in the cache and never scraped successfully is not recent, whatever the time. */
  lemma NeverScrapedNeverRecent(s: State, reqs: seq<Request>, url: string, now: Instant)
    requires url !in s.cache
    requires LastScrape(reqs, url).None?
    ensures !IsRecentlyScraped(Run(s, reqs).cache, url, now)
  {
    RunCache(s, reqs, url);
  }

  /**
   * After a session in which `url` was last scraped successfully at `t`, the
   * URL is recent at `now` exactly while `now` precedes the second one day
   * after the truncated `t`.
   */
  lemma RecentAfterSession(s: State, reqs: seq<Request>, url: string, t: Instant, now: Instant)
    requires LastScrape(reqs, url) == Some(t)
    ensures IsRecentlyScraped(Run(s, reqs).cache, url, now)
            <==> now < FromSeconds(ToSeconds(t) + SecondsPerDay)
  {
    RunCache(s, reqs, url);
    BeforeSecond(now, ToSeconds(t) + SecondsPerDay);
  }

  /** No cache entry records a second later than the one `limit` falls in. */
  ghost predicate NotAfter(c: Cache, limit: Instant) {
    forall u :: u in c ==> c[u] <= ToSeconds(limit)
  }

  /**
   * When every request is handled no later than `limit`, a cache with no
   * future entries keeps having none: the cache never claims a scrape that has
   * not happened yet.
   */
  lemma {:induction false} RunNotAfter(s: State, reqs: seq<Request>, limit: Instant)
    requires NotAfter(s.cache, limit)
    requires forall i :: 0 <= i < |reqs| ==> reqs[i].now <= limit
    ensures NotAfter(Run(s, reqs).cache, limit)
    decreases |reqs|
  {
    if |reqs| > 0 {
      var s1 := Scrape(s, reqs[0].url, reqs[0].result, reqs[0].now).next;
      ToSecondsMonotone(reqs[0].now, limit);
      assert NotAfter(s1.cache, limit);
      RunNotAfter(s1, reqs[1..], limit);
    }
  }
}
