/**
 * One scrape request: the collaborator's answer is validated, then persisted
 * and recorded in the cache, all or nothing.
 */
module WebScraper {
  import opened Wrappers
  import opened Clock
  import opened ScraperCache
  import opened DataHandler

  /** The collaborator's answer, reduced to its `context` entry (absent when the key is missing). */
  datatype ScrapeResult = ScrapeResult(context: Option<seq<string>>)

  /** The state a scrape reads and writes: the session's cache and the table file. */
  datatype State = State(cache: Cache, file: Store)

  /** The one error `scrape` raises: "No context found in the result". */
  datatype ScrapeError = NoContext

  /** Whether the answer was committed or rejected with an error. */
  datatype Outcome = Saved | Rejected(error: ScrapeError)

  /** The state after a scrape together with its verdict. */
  datatype ScrapeStep = ScrapeStep(next: State, outcome: Outcome)

  /**
   * The result's usable content. A missing key and an empty list are both
   * rejected; a non-empty list is accepted even when its rows are empty strings,
   * since only the list's own truthiness is tested.
   */
  predicate HasContext(result: ScrapeResult) {
    result.context.Some? && |result.context.value| > 0
  }

  /** Constructing the scraper over a session: the cache is initialised, the file is left alone. */
  function Start(session: Option<Cache>, file: Store): (s: State)
    ensures s.file == file
    ensures session.Some? ==> s.cache == session.value
    ensures session.None? ==> forall url: string, now: Instant :: !IsRecentlyScraped(s.cache, url, now)
  {
    State(Init(session), file)
  }

  /**
   * `scrape(prompt, url)` once the collaborator has answered with `result`
   * and the clock reads `now` when the cache is updated. The freshness of
   * `url` is not consulted.
   */
  function Scrape(s: State, url: string, result: ScrapeResult, now: Instant): (r: ScrapeStep)
    ensures r.outcome.Saved? <==> HasContext(result)
    ensures r.outcome.Rejected? ==> r.next == s
    ensures r.outcome.Saved? ==> Load(r.next.file) == result.context.value
    ensures r.outcome.Saved? ==> r.next.cache.Keys == s.cache.Keys + {url}
    ensures r.outcome.Saved? ==> r.next.cache[url] == ToSeconds(now)
    ensures r.outcome.Saved? ==> forall u :: u in s.cache && u != url ==> r.next.cache[u] == s.cache[u]
    ensures r.outcome.Saved? ==> IsRecentlyScraped(r.next.cache, url, now)
    ensures r.outcome.Saved? ==> forall u, t :: u != url ==>
              (IsRecentlyScraped(r.next.cache, u, t) <==> IsRecentlyScraped(s.cache, u, t))
  {
    if !HasContext(result) then
      ScrapeStep(s, Rejected(NoContext))
    else
      var file' := Save(s.file, result.context.value);
      LoadAfterSave(s.file, result.context.value);
      var cache' := UpdateCache(s.cache, url, now);
      FreshAfterUpdate(s.cache, url, now);
      ScrapeStep(State(cache', file'), Saved)
  }

  /**
   * The freshness check is inert: two states that differ only in their
   * caches (one may hold `url` as recent, the other not) give the same verdict
   * and the same file, and the URL's cache entry ends up identical.
   */
  lemma ScrapeIgnoresFreshness(s1: State, s2: State, url: string, result: ScrapeResult, now: Instant)
    requires s1.file == s2.file
    ensures Scrape(s1, url, result, now).outcome == Scrape(s2, url, result, now).outcome
    ensures Scrape(s1, url, result, now).next.file == Scrape(s2, url, result, now).next.file
    ensures HasContext(result) ==>
              Scrape(s1, url, result, now).next.cache[url] == Scrape(s2, url, result, now).next.cache[url]
  {
  }

  /** A URL scraped a moment ago is scraped again, and its rows replace the table. */
  lemma RecentUrlIsRescraped(s: State, url: string, result: ScrapeResult, now: Instant)
    requires IsRecentlyScraped(s.cache, url, now)
    requires HasContext(result)
    ensures Scrape(s, url, result, now).outcome == Saved
    ensures Load(Scrape(s, url, result, now).next.file) == result.context.value
  {
  }
}
