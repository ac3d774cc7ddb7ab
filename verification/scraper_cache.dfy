/**
 * The per-URL freshness table kept in the session: for every URL that was
 * scraped successfully, the whole second at which that happened.
 */
module ScraperCache {
  import opened Wrappers
  import opened Clock

  /** URL to last-scraped time, in whole seconds. */
  type Cache = map<string, int>

  /**
   * Constructing the cache: the session's existing table is kept as it is;
   * only a session without one gets a fresh, empty table.
   */
  function Init(existing: Option<Cache>): (c: Cache)
    ensures existing.Some? ==> c == existing.value
    ensures existing.None? ==> forall url: string :: url !in c
  {
    match existing
    case Some(c0) => c0
    case None => map[]
  }

  /** Constructing a second time over the table the first constructor produced changes nothing. */
  lemma InitIdempotent(existing: Option<Cache>)
    ensures Init(Some(Init(existing))) == Init(existing)
  {
  }

  /**
   * Whether `url` was scraped less than one day before `now`. The stored
   * second is read back as the start of that second and the elapsed time is
   * compared strictly against one day, to the microsecond.
   */
  function IsRecentlyScraped(c: Cache, url: string, now: Instant): (recent: bool)
    ensures url !in c ==> !recent
    ensures url in c ==> (recent <==> ToSeconds(now) < c[url] + SecondsPerDay)
  {
    if url in c then
      BeforeSecond(now, c[url] + SecondsPerDay);
      now - FromSeconds(c[url]) < OneDay
    else
      false
  }

  /** Recording a successful scrape of `url` at `now`; every other URL keeps its entry. */
  function UpdateCache(c: Cache, url: string, now: Instant): (c': Cache)
    ensures c'.Keys == c.Keys + {url}
    ensures c'[url] == ToSeconds(now)
    ensures forall u :: u in c && u != url ==> c'[u] == c[u]
  {
    c[url := ToSeconds(now)]
  }

  /** A URL is fresh at the very instant its scrape was recorded. */
  lemma FreshAfterUpdate(c: Cache, url: string, now: Instant)
    ensures IsRecentlyScraped(UpdateCache(c, url, now), url, now)
  {
  }

  /**
   * After recording `url` at `t`, it counts as recent at `now` exactly while
   * `now` is before the start of the second one day after the recorded second.
   * Because the recorded second is truncated, the window can close up to one
   * second less than a day after `t`.
   */
  lemma FreshWindow(c: Cache, url: string, t: Instant, now: Instant)
    ensures IsRecentlyScraped(UpdateCache(c, url, t), url, now)
            <==> now < FromSeconds(ToSeconds(t) + SecondsPerDay)
  {
  }

  /**
   * The comparison is strict: one full day after the recorded instant the URL
   * is no longer recent, and neither is it at any later time.
   */
  lemma StaleAfterOneDay(c: Cache, url: string, t: Instant, now: Instant)
    requires now >= t + OneDay
    ensures !IsRecentlyScraped(UpdateCache(c, url, t), url, now)
  {
  }

  /** Recording one URL does not change the freshness of any other URL, at any time. */
  lemma UpdateIsolated(c: Cache, url: string, other: string, t: Instant, now: Instant)
    requires other != url
    ensures IsRecentlyScraped(UpdateCache(c, url, t), other, now) == IsRecentlyScraped(c, other, now)
  {
  }
}
