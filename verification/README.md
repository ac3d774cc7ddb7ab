# Web scraper freshness cache and persistence pipeline

A Dafny model of the stateful core of a small interactive web-scraping
utility. The utility sends a URL and a prompt to an LLM-backed extraction
library, checks the answer, writes the extracted text rows to a one-column
table file (`parsed_data.csv`, column `Context`), and records in a per-session
cache when each URL was last scraped.

The model is functional. The session's hidden state (the cache dictionary
in the UI framework's session object, plus the table file on disk) becomes
an explicit immutable record `State(cache, file)`. Each operation is a pure
transition over that record.

- `Clock`: time. `datetime.now()` becomes an `Instant` in microseconds,
  passed in as a parameter. A stored timestamp is the whole second that the
  `"%Y-%m-%d %H:%M:%S"` format keeps. `ToSeconds` models rendering with that
  format and `FromSeconds` models parsing it back.
- `ScraperCache`: `ScraperCache.__init__`, `is_recently_scraped` and
  `update_cache` over a `map<string, int>` from URL to seconds.
- `DataHandler`: `load_parsed_data` and `save_parsed_data` over an abstract
  store `Option<seq<string>>`, where `None` means no file exists.
- `WebScraper`: construction and the guard-then-commit logic of `scrape`.
  The collaborator's answer is an input. It is reduced to its optional
  `context` list.
- `Session`: consecutive scrape requests in one session. A rejected answer
  leaves the state unchanged. The lemmas relate the final table and cache to
  the last accepted answers.

Two edge cases of the code, as modelled:

- A list such as `[""]` is accepted and saved, because scraper.py:71 tests
  only whether the list is truthy. `WebScraper.HasContext` accepts it too.
- A malformed stored timestamp would make `strptime` raise (scraper.py:18).
  None can arise, because only scraper.py:23 writes entries, so the cache is
  modelled as whole seconds.

## Model

| member | source | states |
|---|---|---|
| Clock.ToSeconds | scraper.py:23 | Rendering with the seconds format drops the fraction: the result's second starts at or before the instant and less than one second before it |
| Clock.ParseRendered | scraper.py:18-23 | Parsing a rendered timestamp gives back the same whole second |
| Clock.BeforeSecond | scraper.py:18-19 | Comparing an instant with the start of a whole second agrees with comparing its truncated second, so the microsecond freshness test equals a whole-second test |
| ScraperCache.Init | scraper.py:12-14 | Construction keeps an existing session cache untouched and creates an empty one only when none exists; in the empty one no URL is present |
| ScraperCache.InitIdempotent | scraper.py:13-14 | Constructing again over the cache a constructor produced changes nothing |
| ScraperCache.IsRecentlyScraped | scraper.py:16-20 | A URL without an entry is never recent; with an entry, it is recent iff the current whole second is less than 86400 seconds after the stored one (strict) |
| ScraperCache.UpdateCache | scraper.py:22-23 | The key set grows by exactly the URL; its entry becomes the truncated current time; every other URL's entry is unchanged |
| ScraperCache.FreshAfterUpdate | scraper.py:16-23 | Immediately after recording a URL, at the same instant, it is recent |
| ScraperCache.FreshWindow | scraper.py:18-23 | After recording a URL at t, it is recent at now iff now precedes the start of the second one day after t's truncated second |
| ScraperCache.StaleAfterOneDay | scraper.py:19-23 | One full day or more after the recorded instant the URL is not recent, because the comparison is strict |
| ScraperCache.UpdateIsolated | scraper.py:22-23 | Recording one URL never changes whether any other URL is recent, at any time |
| DataHandler.Load | scraper.py:28-33 | A missing file reads as the empty table; an existing one reads as its rows |
| DataHandler.Save | scraper.py:36-38 | After a save the file exists |
| DataHandler.LoadAfterSave | scraper.py:28-38 | Loading after saving rows returns exactly those rows in order, whatever the file held before |
| DataHandler.SaveOverwrites | scraper.py:36-38 | A second save wholly replaces the first; nothing is appended or merged |
| WebScraper.Start | scraper.py:42-44 | Building the scraper keeps the file and an existing cache; over a fresh session no URL is recent at any time |
| WebScraper.Scrape | scraper.py:46-78 | Succeeds iff the answer has a non-empty context list; on failure the state (table and cache) is unchanged; on success the table loads as the context rows, the cache gains exactly the URL with the truncated current time while every other entry is kept, the URL is recent, and every other URL's freshness is unchanged at every time |
| WebScraper.ScrapeIgnoresFreshness | scraper.py:46-49 | The verdict, the resulting file and the URL's new cache entry do not depend on the prior cache, so freshness is not enforced |
| WebScraper.RecentUrlIsRescraped | scraper.py:46-78 | A URL that is recently scraped is still scraped again, and its new rows replace the table |
| Session.Run | scraper.py:108-113 | A rejected answer is caught and the session continues unchanged: a session whose answers are all rejected leaves the state as it was, and no cache entry is ever deleted |
| Session.RunFile | scraper.py:71-113 | After a sequence of scrapes the file holds exactly the context of the last accepted answer, or is unchanged if no answer was accepted |
| Session.RunCache | scraper.py:71-113 | After a sequence of scrapes a URL has an entry iff it had one before or was accepted at least once; the entry is the truncated time of its last accepted scrape, or else the earlier entry |
| Session.NeverScrapedNeverRecent | scraper.py:16-20 | A URL with no earlier entry and no accepted scrape in the session is not recent at any time |
| Session.RecentAfterSession | scraper.py:16-23 | If a URL's last accepted scrape was at t, it is recent at now iff now precedes the second one day after t's truncated second |
| Session.RunNotAfter | scraper.py:22-23 | If every request is handled no later than a limit, a cache with no entry past the limit's second keeps having none |

## Left out

- The Streamlit interface: `ScraperApp.run`, `display_data`, the buttons, the `scraping` session flag and the error banner. They only present data. `Session.Run` keeps only the catch of a rejected answer.
- The `SmartScraperGraph` call, its configuration (API key, model name, temperature, verbose and headless flags) and the `prompt` argument. The prompt only feeds that external library. The library's answer is an input to `WebScraper.Scrape`.
- A collaborator that raises (network, credential or rate-limit errors). Only its returned value is modelled.
- pandas CSV serialisation and parsing, and the file-system failures they can raise. The file is an abstract row sequence.
- DataHandler.LoadAfterSave: holds for the abstract table only. It says nothing about CSV quoting or about pandas' type inference when reading the file back.
- `datetime.now`, `strftime` and `strptime`. The clock is a parameter counting microseconds from a fixed origin. Calendar rendering is reduced to truncation to whole seconds. Local-time jumps such as daylight-saving changes are not modelled.
- The commented-out branches: the freshness skip, the pause button and domain validation. `is_valid_domain` is unused and delegates to an external library.
- The `print` diagnostics and credential loading with `load_dotenv`/`getenv`.
- WebScraper.Scrape: does not model `json.dumps` at scraper.py:74, which can raise between the guard and the save, and then the commit is aborted. The other fields of the answer are not modelled, so `WebScraper.Scrape` commits every answer with a non-empty context.
