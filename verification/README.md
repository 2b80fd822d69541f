# Rick and Morty character sync — a Dafny model

This project models the core of a small Django service that copies characters
from the public Rick and Morty catalog API into a local `Character` table and
serves them read-only.

The sync side is the `sync_rick_and_morty` management command:
- `_get` fetches one page. On HTTP 429 it sleeps for `Retry-After` (default 1) and raises `RateLimitError`; other 4xx/5xx raise through `raise_for_status`.
- A tenacity decorator retries `RateLimitError` and `requests.RequestException`. The wait after attempt n is `max(1, min(2^(n-1), 60))`. Once 120 units have passed since the first attempt, the last exception is re-raised.
- `_should_keep` keeps a record only if it is human, alive and from an origin whose name starts with `"Earth ("`.
- `Command.handle` walks the `info.next` cursor chain. It upserts every kept item by `id` with full-row replacement, and counts seen, created and updated rows.

The read side (`views.py`) covers four things:
- the list endpoint's case-insensitive filter;
- its check of the `ordering` parameter;
- the health probe's report and status code;
- the exception handler's dispatch.

Files and modules:
- `wrappers.dfy` (`Wrappers`): `Option`, `Result`.
- `strings.dfy` (`Strings`): `lower`, `startswith`, `replace`, `lstrip`, `join`.
- `upstream.dfy` (`Upstream`): the JSON shape of a page and of an item. A key is `Absent`, `Null` or a string, because the code treats a missing key and a `null` differently.
- `models.dfy` (`Models`): the `Character` row, the pure `Upsert`, and the table as a class whose `rows` map `UpdateOrCreate` updates in place.
- `fetcher.dfy` (`Fetcher`): `_get` and the retry policy. The server is an oracle `(url, attempt number) -> (reply, latency)`, and time is an integer count of units. The loop is the method `Get`, proved against the function `Retry`.
- `sync.dfy` (`Sync`): the filter, record construction, the item loop (`SyncPage`, proved against `SyncItems`) and the page loop (`Handle`, proved against `Walk`).
- `views.dfy` (`Views`): `get_queryset`, `HealthCheckView.get`, `custom_exception_handler`.

Behaviour of the code that is easy to misread:
- `requests.HTTPError` is a subclass of `requests.RequestException`, so 4xx and 5xx responses are retried like network faults, not propagated at once. The only non-retried exception of `_get` that the model represents is the `ValueError` that `time.sleep` raises for a negative `Retry-After`.
- `.replace("Z", "+00:00")` rewrites every `Z`, not only a trailing one.
- No validation step rejects an item. A missing `url` (or another text key) is stored as `""`. A JSON `null` in a text column makes the database write fail (every column is NOT NULL), which aborts the run.
- The stop condition is checked before the wait, so the last attempt can begin up to 120 + 60 units after the first (`Fetcher.RetryLastAttemptStart`). At most 8 attempts are made (`Fetcher.RetryAttemptsBounded`).
- `custom_exception_handler` calls `api_settings.DEFAULT_EXCEPTION_HANDLER` before it tests for `Throttled`, so an exception from that call escapes for every exception, Throttled included. The setting the project configures is `EXCEPTION_HANDLER` (app/config/settings.py:93), and DRF's settings object raises `AttributeError` for a name that is not one of its settings.
- The sync's origin prefix is case-sensitive. The list endpoint's is not (`Views.ReadFilterIgnoresOriginCase`).
- A `null` species (or a `null` status on a human) makes `_should_keep` raise `AttributeError`, which aborts the run.

## Model

| member | source | states |
|---|---|---|
| `Sync.ShouldKeep` | app/characters/management/commands/sync_rick_and_morty.py:16-24 | Keeps exactly when species lower-cases to "human", status to "alive", and the origin name starts with the case-sensitive "Earth (". It raises AttributeError exactly when a null species, or a null status behind a human species, is read. |
| `Sync.OriginVariantsRejected` | app/characters/management/commands/sync_rick_and_morty.py:19-23 | A bare "Earth", a lower-case "earth (C-137)" and a missing or null origin are never kept |
| `Sync.GetText` | app/characters/management/commands/sync_rick_and_morty.py:66-76 | `item.get(key, "")` gives "" for a missing key, the string for a present one, and None exactly for a null |
| `Sync.NormalizeTimestamp` | app/characters/management/commands/sync_rick_and_morty.py:77 | The text handed to the timestamp parser contains no "Z" |
| `Sync.TrailingZBecomesUtcOffset` | app/characters/management/commands/sync_rick_and_morty.py:77 | A timestamp ending in "Z" (and with no other "Z") ends in "+00:00" instead |
| `Sync.BuildRecord` | app/characters/management/commands/sync_rick_and_morty.py:63-79 | A missing id raises KeyError first; then a missing or null `created` raises AttributeError; then a null text column fails the write with IntegrityError. Otherwise the row carries the item's id and the rewritten `created`, and each of the eleven text columns holds its key's string, or "" when the key is missing. |
| `Models.Upsert` | app/characters/management/commands/sync_rick_and_morty.py:63-79 | The row under the id becomes the new record whole; every other row is unchanged; the key set gains only that id; "created" is reported exactly when the id was absent; the table size grows by one exactly then |
| `Models.UpsertIdempotent` | app/characters/management/commands/sync_rick_and_morty.py:63-84 | Upserting a record twice leaves the table as upserting it once, and the second call reports "updated" |
| `Models.UpsertLastWriteWins` | app/characters/management/commands/sync_rick_and_morty.py:63-79 | Of two upserts of one id, the later record is what stays |
| `Models.CharacterTable.UpdateOrCreate` | app/characters/management/commands/sync_rick_and_morty.py:63 | The in-place table write equals `Upsert` of the old rows and keeps every row stored under its own id |
| `Sync.SyncItemGrows` | app/characters/management/commands/sync_rick_and_morty.py:80-84 | One item never removes a row, and each upsert adds one to `seen` and one to either `created` (a new id) or `updated` |
| `Sync.SyncItemsGrows` | app/characters/management/commands/sync_rick_and_morty.py:60-84 | For the item loop of a page, aborted or not: no row is removed, `created` grows by the number of new ids, and `seen` grows by the created plus updated increments |
| `Sync.SyncItemsOnlyKeptStored` | app/characters/management/commands/sync_rick_and_morty.py:60-79 | Every row after the item loop is either an untouched earlier row or the record built from a kept item of the page |
| `Sync.SyncItemsStoresLastKept` | app/characters/management/commands/sync_rick_and_morty.py:60-79 | When the item loop completes, the row under an id is the record built from the last kept item of the page that carries that id |
| `Sync.SyncItemsAbortsIff` | app/characters/management/commands/sync_rick_and_morty.py:60-79 | The item loop stops with an exception exactly when some item of the page raises in `_should_keep`, or is kept and raises while its row is built or written |
| `Sync.SyncItemsFailsAtFirstRaise` | app/characters/management/commands/sync_rick_and_morty.py:60-79 | The item loop ends on the first raising item of the page, with that item's exception (AttributeError from `_should_keep`, else KeyError, AttributeError or IntegrityError from building or writing its row) and the rows and counters the items before it left |
| `Sync.SyncItemsAbortSticks` | app/characters/management/commands/sync_rick_and_morty.py:60-64 | After the first exception, the rest of the page's items are not processed |
| `Sync.SyncItemTwice` | app/characters/management/commands/sync_rick_and_morty.py:61-84 | Syncing an item twice leaves the table as syncing it once. A kept item's second pass counts as updated; a rejected item changes nothing. |
| `Sync.SyncPage` | app/characters/management/commands/sync_rick_and_morty.py:60-84 | The inner `for` loop leaves the table and counters that `SyncItems` gives, and returns the exception it stopped on, if any |
| `Sync.WalkGrows` | app/characters/management/commands/sync_rick_and_morty.py:58-85 | A whole run, completed or aborted, keeps every earlier row (rows upserted from earlier pages survive an abort) and keeps `seen == created + updated` balanced in its increments |
| `Sync.WalkBoundIrrelevant` | app/characters/management/commands/sync_rick_and_morty.py:58 | The page loop's outcome does not depend on which sufficient page bound is used to prove it ends |
| `Sync.PageChainEnds` | app/characters/management/commands/sync_rick_and_morty.py:58-85 | A chain of successfully fetched pages whose last `next` is missing ends the loop within that many pages |
| `Sync.WalkFetchesEachPageOnce` | app/characters/management/commands/sync_rick_and_morty.py:58-85 | A completed run over a chain of k linked pages fetches exactly k pages |
| `Sync.ThreePagesThreeFetches` | app/characters/management/commands/sync_rick_and_morty.py:58-85 | Three pages linked by `next`, the last with a null `next`, give exactly three fetches and an untouched table |
| `Sync.RickKept` | app/characters/management/commands/sync_rick_and_morty.py:16-79 | The record for Rick (human, alive, "Earth (C-137)", `created` ending in "Z") is kept and stored under id 42, its timestamp ending in "+00:00" |
| `Sync.RickUpsertedTwice` | app/characters/management/commands/sync_rick_and_morty.py:60-84 | "Rick" then "Rick Sanchez" under id 42 leave one row named "Rick Sanchez", with created=1 and updated=1 |
| `Sync.Handle` | app/characters/management/commands/sync_rick_and_morty.py:49-88 | The `while url:` loop from the seed query leaves the table, the clock and the result (counts, or the exception that ended the run) that `Walk` gives |
| `Sync.WalkStopsOnFetchFailure` | app/characters/management/commands/sync_rick_and_morty.py:58-59 | A fetch whose exception survives the retries ends the run with that exception, right after the fetch, with the table and counters unchanged |
| `Sync.WalkStopsOnRaisingPage` | app/characters/management/commands/sync_rick_and_morty.py:58-84 | A fetched page on which an item raises ends the run with the item loop's exception, table and counters |
| `Sync.WalkEndsWithoutNext` | app/characters/management/commands/sync_rick_and_morty.py:58-85 | A page that fetches, whose `next` is missing, null or "", and whose items all sync, ends the run as completed after exactly one more fetch, with the rows that page's item loop leaves |
| `Sync.SelfLoopStopsOnKeyError` | app/characters/management/commands/sync_rick_and_morty.py:58-85 | A page that links back to itself and holds a kept item without an id stops the run on the first page with KeyError and no row written |
| `Fetcher.GetOnce` | app/characters/management/commands/sync_rick_and_morty.py:33-43 | A 429 with a non-negative `Retry-After` (default 1) sleeps that long, then raises RateLimitError; a negative one raises ValueError. Only a 429 adds time beyond the request. A page is returned exactly for a response outside 400-599. A transport fault raises a connection error, and another 4xx/5xx raises `HTTPError` with its status, both without delay. |
| `Fetcher.Wait` | app/characters/management/commands/sync_rick_and_morty.py:27 | Every wait lies between 1 and 60 units |
| `Fetcher.WaitSchedule` | app/characters/management/commands/sync_rick_and_morty.py:27 | The waits are 2^(n-1) for attempts 1 to 6 (1, 2, 4, 8, 16, 32) and 60 from attempt 7 on |
| `Fetcher.Retry` | app/characters/management/commands/sync_rick_and_morty.py:26-31 | The result is the last attempt's outcome, unchanged, and every earlier attempt failed with a retryable exception, so a success ends the loop. A retryable failure is returned only once at least 120 units have passed since the first attempt. |
| `Fetcher.RetryPropagatesAtOnce` | app/characters/management/commands/sync_rick_and_morty.py:29 | A failure outside RateLimitError and RequestException is returned after the attempt that raised it, with no wait |
| `Fetcher.RetryAttemptsBounded` | app/characters/management/commands/sync_rick_and_morty.py:27-28 | Because the waits alone add up to 123 after 7 attempts, one retrying call makes at most 8 attempts |
| `Fetcher.RetryLastAttemptStart` | app/characters/management/commands/sync_rick_and_morty.py:28 | The last attempt starts less than 120 + 60 units after the first |
| `Fetcher.RetryStep` | app/characters/management/commands/sync_rick_and_morty.py:26-31 | A retryable failure that ends inside the budget is followed by the next attempt, which begins after that attempt's duration plus `Wait(attempt)` |
| `Fetcher.RetryStop` | app/characters/management/commands/sync_rick_and_morty.py:26-31 | An attempt that succeeds, fails with a non-retried exception, or ends at or past 120 units is the last one, and the call returns its outcome when it ends |
| `Fetcher.RetryTiming` | app/characters/management/commands/sync_rick_and_morty.py:26-31 | The call returns when its last attempt ends, each attempt begins after the previous one's duration and wait, and every attempt before the last ended inside the budget |
| `Fetcher.Fetch` | app/characters/management/commands/sync_rick_and_morty.py:26-33 | Each decorated `_get` call has its own budget. It makes 1 to 8 attempts, every attempt before the last failed retryably, and it re-raises a retryable failure only after the budget has run out. |
| `Fetcher.FetchStopsOnSuccess` | app/characters/management/commands/sync_rick_and_morty.py:26-43 | A first attempt that returns a page is the only attempt, and its page is the result |
| `Fetcher.RateLimitedOnceThenServed` | app/characters/management/commands/sync_rick_and_morty.py:36-41 | A 429 with `Retry-After: 2` followed by a 200 takes 2 attempts and 2 + 1 units: the server's delay, then the backoff |
| `Fetcher.FetchTiming` | app/characters/management/commands/sync_rick_and_morty.py:26-33 | For one decorated call from time 0: it returns when its last attempt ends, attempt k begins at the sum of the earlier attempts' durations and waits (`Start`), and every attempt before the last ended before 120 units |
| `Fetcher.AlwaysDownGivesUpAfterEight` | app/characters/management/commands/sync_rick_and_morty.py:26-31 | A connection that always fails at once gets 8 attempts, and the eighth failure is re-raised at 123 units |
| `Fetcher.AlwaysDownStartTimes` | app/characters/management/commands/sync_rick_and_morty.py:26-31 | With instant failures the 8 attempts begin at 0, 1, 3, 7, 15, 31, 63 and 123 units |
| `Fetcher.Get` | app/characters/management/commands/sync_rick_and_morty.py:26-43 | The retry loop returns what `Fetch` specifies: at most 8 attempts, and a retryable failure only after 120 units |
| `Strings.ReplaceAllRemoves` | app/characters/management/commands/sync_rick_and_morty.py:77 | After `.replace("Z", "+00:00")` no "Z" remains anywhere in the text |
| `Strings.ReplaceAllUnchanged` | app/characters/management/commands/sync_rick_and_morty.py:77 | A timestamp without "Z" is passed on unchanged |
| `Strings.ReplaceAllAppend` | app/characters/management/commands/sync_rick_and_morty.py:77 | The rewrite works piecewise over concatenation |
| `Strings.ReplaceAllIdempotent` | app/characters/management/commands/sync_rick_and_morty.py:77 | Rewriting an already rewritten timestamp changes nothing |
| `Strings.LStripSplits` | app/characters/views.py:33 | `lstrip("-")` removes a run of leading dashes and leaves a text that does not start with "-" |
| `Strings.LStripRepeat` | app/characters/views.py:33 | Any number of leading dashes before "name" or "id" is stripped off |
| `Strings.LowerKeepsPrefix` | app/characters/views.py:29 | A case-sensitive prefix is also a case-insensitive one |
| `Views.GetQueryset` | app/characters/views.py:25-37 | Raises ValidationError on `ordering` with the message "Invalid field. Allowed: name, id" exactly when `ordering` is non-empty and dash-stripped it is neither "name" nor "id". Otherwise returns exactly the rows that match the case-insensitive human/alive/"Earth (" filter. |
| `Views.OrderingAcceptedIff` | app/characters/views.py:32-33 | A non-empty `ordering` is accepted exactly when it is some number of "-" followed by "name" or "id" |
| `Views.OrderingExamples` | app/characters/views.py:32-36 | No `ordering`, an empty one, and "--name" are accepted; a lone "-" is rejected |
| `Views.SyncedRowsAreListed` | app/characters/views.py:26-30 | Every row the sync builds from a kept item passes the list endpoint's filter |
| `Views.ReadFilterIgnoresOriginCase` | app/characters/views.py:26-30 | A row with origin "earth (C-137)" is listed, though the sync would reject the item it came from |
| `Views.HealthCheck` | app/characters/views.py:45-76 | Status is "degraded" exactly when the DB check raises, the cache check raises, or the cache does not return "pong", and "ok" otherwise; HTTP status is 200 exactly for "ok", else 503. A DB row other than `(1,)` only sets `database.ok` to false. |
| `Views.CustomExceptionHandler` | app/characters/views.py:80-95 | If the default-handler call raises, that exception escapes, and only then does the handler fail. Otherwise Throttled gives 429 with `available_in` equal to the exception's wait, even when the default handler answered; any other exception gets the default response, or 503 when there is none. |
| `Views.HandlerRaisesWhenDefaultRaises` | app/characters/views.py:80-83 | When the default-handler lookup raises AttributeError, every exception, Throttled included, ends in that AttributeError instead of a 429 or 503 |

## Left out

- Real HTTP, JSON decoding, the request timeout of 20, tenacity internals and real sleeping. The server is an oracle giving each attempt's reply and latency; time is an integer count of units. The oracle depends only on the URL and the attempt number within one call, so fetching the same cursor twice gives the same replies.
- `Sync.Handle`: requires that the run from the seed ends (`ChainEnds`): some page has no `next`, a fetch fails, or an item of a fetched page raises. Only on an endless chain of `next` links (a cycle, or ever-new cursors) whose pages all fetch and sync without an exception does the command loop forever, which a terminating Dafny method cannot express; a cycle that meets a raising item is covered (`Sync.SelfLoopStopsOnKeyError`).
- A non-numeric `Retry-After` header (a `ValueError` from `int`) is not modelled; the header is an optional integer.
- Failures of `resp.json()` are not modelled; a successful response carries a page.
- `datetime.fromisoformat` is not modelled. The stored `created` is the rewritten text, and a malformed timestamp (a `ValueError` that would abort the run) is not represented.
- Case mapping beyond ASCII. `lower()` and the database's case-insensitive lookups are modelled on the letters A-Z only.
- JSON values of unexpected types are not modelled: a number where a string is expected, an `origin` that is not an object, `results` that is null or not a list, and a null or non-integer `id`.
- Database column lengths (`max_length`) are not modelled; whether they are enforced depends on the database engine.
- The summary line written to stdout at the end of a run.
- `Views.CustomExceptionHandler`: whether `api_settings.DEFAULT_EXCEPTION_HANDLER` resolves and what it returns belong to DRF, which is not part of this model. The handler takes that outcome (a response, none, or a raised exception) as the parameter `default`. The model therefore does not itself decide that this configuration always raises.
- The list endpoint's sorting (DRF's `OrderingFilter`), its pagination and its serializer. `GetQueryset` returns the filtered rows as a map keyed by id.
- The text formatting of `str(row)` and `str(e)` in the health report. The row and the error text are kept as values.
- Row atomicity against concurrent readers, and concurrency in general.
