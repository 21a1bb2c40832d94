# Stock-stage tracker: verified Dafny model of its core

The system screens tickers, asks a Gemini model for a Stan Weinstein stage
(STAGE1 to STAGE4), and records tracked positions in a PostgreSQL table
`tracked_stocks`. This project models the parts of it that hold state or
make decisions:

- **Position lifecycle** (`track_recommendations.dfy`, module
  `TrackRecommendations`). The `tracked_stocks` table is a class holding its
  rows as a sequence in insertion order. `track_stock` follows a decision
  table: a stage-2 signal opens a position when the ticker has no row, or when
  its latest row (greatest `open_date`) is closed. It skips the signal when the
  latest row is still open. Any other stage changes nothing.
  `get_open_positions` filters the rows and projects four columns.
  `update_close_info` fills the four close columns of a ticker's rows that have
  no `close_date`. The day of the run is a parameter. Whether the schema's
  `ticker TEXT PRIMARY KEY` is enforced is also a parameter (`uniqueTicker`).
- **API-key rotation** (`api_keys.dfy`, `paid_models.dfy`, `gemini.dfy`).
  The key list is filtered from the environment when the module is imported.
  `itertools.cycle` is the class `ApiKeys.KeyCycle`, whose ghost call counter
  shows that the k-th `next` returns `keys[k % n]`. Each module's globals
  (`current_api_key`, `api_usage`) form a `RateLimiter` class. In
  paid_models.py, `enforce_rate_limit` rotates to the next key at
  REQUEST_LIMIT (15) and restarts that key's count. In gemini.py the rotation
  is commented out, so the current key's count grows without bound.
- **Small rules** (`ibkr.dfy`, `fetch_data.dfy`): the stop-loss percentage
  bands, the side and price of the protective stop order, the average
  dollar-volume filter of `getData`, and `process_tickers` (truthy symbols,
  sorted).
- `builtins.dfy` restates the Python built-ins these rely on: truthiness of
  optional strings, `str.lower`/`str.upper`, `str` ordering and `sorted`.
  `wrappers.dfy` holds `Option` and `Result`.

Three facts about the code shape the model:

- `track_stock` never closes a position. Only `update_close_info` closes,
  with explicit values.
- `ticker TEXT PRIMARY KEY` (track_recommedations.py:32) allows one row per
  ticker, although the comment at line 102 expects a new row per episode.
  Whether the key is enforced is the `uniqueTicker` parameter.
- The read at lines 81-88 and the insert at lines 106-109 run with no lock.

## Model

| member | source | states |
|---|---|---|
| `TrackRecommendations.Latest` | track_recommedations.py:81-88 | the result is absent exactly when the ticker has no row; otherwise it is a row of the ticker with the greatest `open_date`, and no later-inserted row of the ticker has that date |
| `TrackRecommendations.Decide` | track_recommedations.py:88-111 | for any row the SELECT may legally return (none exactly when the ticker has no row, else one with the greatest open date), the decision table never changes or deletes an existing row: the table is either unchanged or has exactly the new open row appended, and it grows exactly when the outcome is Opened or Reopened |
| `TrackRecommendations.Track` | track_recommedations.py:78-111 | the same promise for `track_stock` with the model's answer to the SELECT (`Latest`) |
| `TrackRecommendations.TrackAsWritten` | track_recommedations.py:80-116 | as written, every call that finds a row for the ticker raises ValueError and leaves the table unchanged; with no row it behaves like the decision table |
| `TrackRecommendations.OpensFirstPosition` | track_recommedations.py:91-96 | no row for the ticker and a stage equal to "stage2" in any letter case: exactly one row is appended, with today, price and crossover values and all close columns NULL |
| `TrackRecommendations.IgnoresOtherStageWithoutPosition` | track_recommedations.py:97-98 | no row for the ticker and any other stage: the table is unchanged |
| `TrackRecommendations.ReopensAfterClose` | track_recommedations.py:101-109 | latest row closed (close date and close price both set), stage 2, no ticker key: a new open row is appended and the earlier rows, the closed one included, are kept as they were |
| `TrackRecommendations.PrimaryKeyBlocksReopen` | track_recommedations.py:104-114 | under the `ticker TEXT PRIMARY KEY` of line 32 the reopening INSERT is refused, the error is swallowed, and the table is unchanged |
| `TrackRecommendations.SkipsDuplicateOpen` | track_recommedations.py:110-111 | latest row not closed and stage 2: the table is unchanged, so no second open row appears |
| `TrackRecommendations.NeverCloses` | track_recommedations.py:104-112 | a row exists and the stage is not stage 2: nothing changes; `track_stock` never closes a position |
| `TrackRecommendations.StageIsCaseInsensitive` | track_recommedations.py:78-92 | "stage2", "STAGE2" and "Stage2" all count as stage 2; "stage3", "stage2 " and "" do not |
| `TrackRecommendations.OnlyLatestOpenIsAtMostOne` | track_recommedations.py:91-111 | if every row that is not closed is its ticker's latest row, no ticker has two rows that are not closed |
| `TrackRecommendations.TrackAtMostOneOpen` | track_recommedations.py:91-111 | if only latest rows are open, one call of `track_stock` on any date leaves no ticker with two open rows |
| `TrackRecommendations.TrackKeepsOneOpen` | track_recommedations.py:91-111 | if only latest rows are open and today is not before any open date of the ticker, then after `track_stock` only latest rows are open and each ticker has at most one open row |
| `TrackRecommendations.BackdatedReopenDuplicates` | track_recommedations.py:77-109 | without the clock condition the invariant fails: a reopening dated before the closed row is not the latest, and the next stage-2 call leaves two open rows for one ticker |
| `TrackRecommendations.SameDayTieDuplicates` | track_recommedations.py:77-109 | opening, closing and reopening a ticker on one day leaves a closed and an open row with the same `open_date`; the SELECT may return the closed one, and the next stage-2 call then leaves two open rows |
| `TrackRecommendations.DecideKeepsStrictLatest` | track_recommedations.py:81-111 | if every open row opened strictly after the other rows of its ticker and today is strictly after them, then whichever legal row the SELECT returns, this stays true and no ticker has two open rows |
| `TrackRecommendations.AsWrittenNeverReopens` | track_recommedations.py:80-114 | with a closed latest row and stage 2, the literal code raises and changes nothing, where the decision table (without the ticker key) reopens |
| `TrackRecommendations.OpenPositionsMembers` | track_recommedations.py:142-145 | a position is returned exactly when some row with both `close_date` and `close_price` NULL projects to it (ticker, open date, open crossover date and price) |
| `TrackRecommendations.OpenPositionsAppend` | track_recommedations.py:142-145 | the open-position query distributes over concatenation of the table; the model lists results in table order (see "## Left out") |
| `TrackRecommendations.CloseRowsChangesOnlyMatches` | track_recommedations.py:175-182 | the UPDATE keeps the number of rows; rows of other tickers and rows that already have a close date are unchanged; matching rows get the four close values and keep their open columns |
| `TrackRecommendations.UpdateKeepsOneOpen` | track_recommedations.py:175-182 | closing never opens a row, so "only latest rows are open" survives `update_close_info` |
| `TrackRecommendations.UpdateClosesTicker` | track_recommedations.py:175-182 | when a close date is given, the ticker has no open position afterwards |
| `TrackRecommendations.TrackedStocks.constructor` | track_recommedations.py:30-42 | a new table is empty and records whether the ticker key is enforced |
| `TrackRecommendations.TrackedStocks.InsertRow` | track_recommedations.py:93-96 | an INSERT appends the row unless the ticker key is enforced and the ticker is already present, in which case the table is unchanged; distinct tickers are kept under the key |
| `TrackRecommendations.TrackedStocks.TrackStock` | track_recommedations.py:66-116 | the new table and the outcome are those of the decision table `Track` applied to the old table |
| `TrackRecommendations.TrackedStocks.GetOpenPositions` | track_recommedations.py:132-145 | returns the open-position query of the current table: exactly the projections of rows whose close columns are both NULL |
| `TrackRecommendations.TrackedStocks.UpdateCloseInfo` | track_recommedations.py:147-186 | the new table is the old one with the UPDATE applied to the ticker's rows that have no close date |
| `Builtins.Truthies` | paid_models.py:15-16 | the kept strings are exactly the values that are neither None nor empty, each as often as it occurs, never more than the input |
| `Builtins.TruthiesAppend` | paid_models.py:15-16 | filtering commutes with concatenation, so kept values keep their original order |
| `Builtins.Sort` | fetch_data.py:12 | `sorted` returns an ascending permutation of its input, ordered by code point |
| `ApiKeys.LoadKeys` | paid_models.py:6-19 | import fails with ValueError exactly when no environment value is truthy; otherwise the key list is the truthy values in order, not empty (gemini.py:11-24 is the same code) |
| `ApiKeys.CycleStep` | paid_models.py:22 | one more `next` moves the cycle position one place and wraps to the first key after the last |
| `ApiKeys.KeyCycle.constructor` | paid_models.py:22 | a new cycle is over the given keys and has served no call |
| `ApiKeys.KeyCycle.Next` | paid_models.py:29-31 | the call numbered k (from 0) returns `keys[k % n]`, round-robin |
| `PaidModels.Enforce` | paid_models.py:43-54 | below the limit the key stays and its count rises by 1; at or above the limit the next cycle key becomes current with count exactly 1; every other count is unchanged |
| `PaidModels.EnforceWithinLimit` | paid_models.py:24-53 | if every count is at most 15 before a call, every count is at most 15 after it |
| `PaidModels.FillsBeforeRotating` | paid_models.py:47-53 | the current key serves until its count reaches 15 without consulting the cycle; the call after that switches to the cycle's next key with count 1 |
| `PaidModels.RateLimiter.constructor` | paid_models.py:22-40 | after import every count is 0, the current key is the first key, and the cycle has been advanced once |
| `PaidModels.RateLimiter.GetNextApiKey` | paid_models.py:29-31 | returns the cycle's next key and advances it by one |
| `PaidModels.RateLimiter.ConfigureGemini` | paid_models.py:33-37 | advances the cycle by one and returns that key |
| `PaidModels.RateLimiter.EnforceRateLimit` | paid_models.py:43-54 | current key and counts move as `Enforce` says, with the cycle's upcoming key; the cycle advances only on a switch; the 15 bound is kept |
| `PaidModels.RateLimiter.GenerateInsight` | paid_models.py:71-77 | advances the cycle by one without touching `current_api_key` or `api_usage` |
| `Gemini.Enforce` | gemini.py:50-61 | the current key never changes; its count rises by exactly 1 even at or above the limit; other counts are unchanged |
| `Gemini.RepeatCharges` | gemini.py:50-61 | k calls keep the key and add exactly k to its count, leaving the others alone |
| `Gemini.CountsAreUnbounded` | gemini.py:29-61 | from import, after k calls the first key's count is k, so past 15 calls it exceeds REQUEST_LIMIT |
| `Gemini.RateLimiter.constructor` | gemini.py:26-47 | after import every count is 0 and the current key is the first key; the cycle has been advanced exactly once, the re-configure at line 47 does not advance it |
| `Gemini.RateLimiter.GetNextApiKey` | gemini.py:34-36 | returns the cycle's next key and advances it by one |
| `Gemini.RateLimiter.ConfigureGemini` | gemini.py:38-42 | advances the cycle by one and returns that key |
| `Gemini.RateLimiter.EnforceRateLimit` | gemini.py:50-61 | counts move as `Gemini.Enforce` says and `current_api_key` never changes |
| `Gemini.RateLimiter.GenerateInsight` | gemini.py:78-86 | advances the cycle by exactly one before any model call, leaving `current_api_key` and `api_usage` alone |
| `Ibkr.GetData` | ibkr.py:9-47 | returns the fetched bars unchanged exactly when they are present, non-empty and their mean close times volume is strictly above the limit; otherwise returns an empty list |
| `Ibkr.LiquidIffTotal` | ibkr.py:37-39 | the average test is equivalent to the total dollar volume exceeding limit times the number of bars |
| `Ibkr.StopPct` | ibkr.py:49-63 | the stop fraction always lies between 0.025 and 0.12 |
| `Ibkr.StopPctNonIncreasing` | ibkr.py:49-63 | a higher price never gets a larger stop fraction |
| `Ibkr.StopPctBoundaries` | ibkr.py:49-63 | each band boundary (0.2, 0.5, 1, 5, 10, 20) gets the fraction of the band above it |
| `Ibkr.StopLoss` | ibkr.py:78-90 | the stop is SELL exactly when the action upper-cases to "BUY"; for a positive entry a SELL stop lies below the entry and within 12% of it, a BUY stop above it and within 12% |
| `Ibkr.StopDistance` | ibkr.py:84-90 | the unrounded stop is exactly `entry * stop_pct` away from the entry, below it for SELL and above it for BUY |
| `Ibkr.BuyIsCaseInsensitive` | ibkr.py:85 | "buy" and "Buy" get a SELL stop; "SELL" gets a BUY stop |
| `FetchData.KeptSymbols` | fetch_data.py:7-10 | a symbol is kept exactly when it is non-empty and some row carries it |
| `FetchData.ProcessTickers` | fetch_data.py:3-15 | the result is sorted ascending, holds exactly the truthy symbols with their multiplicity, and has no more entries than there are rows; a missing `data`, `table` or `rows` level gives an empty list |

## Findings

| source | as written | input that shows it | evidently intended | confidence | as-written member | corrected member |
|---|---|---|---|---|---|---|
| track_recommedations.py:82-103 | the SELECT returns three columns but line 103 unpacks four names; the ValueError is not a `psycopg2.Error`, so it escapes and nothing is committed | a ticker whose only row is closed, then `track_stock` with stage "stage2" | read the latest row's `close_date` and `close_price` and, if both are set, insert a new row | high, not executed | `TrackRecommendations.AsWrittenNeverReopens` | `TrackRecommendations.ReopensAfterClose` |
| track_recommedations.py:32 | `ticker TEXT PRIMARY KEY` allows one row per ticker, so the reopening INSERT at lines 106-109 fails and the error is swallowed at lines 113-114 | a ticker with one closed row, then a stage-2 call (with line 103 corrected) | one new row per episode, as the comment at line 102 says | high, not executed | `TrackRecommendations.PrimaryKeyBlocksReopen` | `TrackRecommendations.ReopensAfterClose` |

The class `TrackedStocks` uses the decision table `Track` and takes the
primary key as a parameter. `uniqueTicker = true` is the schema as written.
`uniqueTicker = false` is the intended table with many episodes per ticker.

## Left out

- Database plumbing: credentials, connections, `initialize_db` and its DDL, commit and close. The table is in memory. Every modelled operation is one step, with no transaction or isolation.
- Concurrency between job runs. The code reads the latest row and then inserts, with no lock in between. The model is sequential, so this race is not represented.
- `get_latest_price` is a constant placeholder and is not part of this model.
- `datetime.now()` is the parameter `today`. Dates are day numbers, matching the `%Y-%m-%d` formatting.
- TrackRecommendations.Latest: the model takes the last-inserted row among rows with equal `open_date`; PostgreSQL leaves that choice unspecified.
- TrackRecommendations.TrackKeepsOneOpen: assumes today is not before any recorded open date of the ticker; `BackdatedReopenDuplicates` shows the invariant fails otherwise. It also depends on the tie choice of `Latest`: after a same-day close and reopen, PostgreSQL may return the closed row, and `SameDayTieDuplicates` shows a second open row follows. `DecideKeepsStrictLatest` holds for any tie choice, but only when the clock moves strictly forward between opens of a ticker.
- TrackRecommendations.Row: `open_date` and `open_price` are never NULL in the model; only the INSERTs of `track_stock` write rows, and they always set both from `today` and `price`.
- Builtins.Lower: `str.lower` and `str.upper` are modelled on ASCII letters only; other characters are left as they are.
- Builtins.LexLe: Python's `str` ordering is modelled by code point, which is what CPython compares.
- Ibkr.StopLoss: states the stop price before `round(..., 4)`; float rounding is not modelled.
- Ibkr.GetData: sums and the average use exact reals, not floating point. `app.get_historical_data` (I/O) is replaced by the parameter `fetched`. The call at ibkr.py:12 passes five arguments, but both `get_historical_data` methods in the repository take fewer (trade_data.py:33, essentials.py:34), so `getData` as written raises TypeError before the filter; the model starts from the fetched bars.
- All LLM calls and prompt construction: `generate_content`, file upload and the ollama clients. They are foreign services returning free text. `genai.configure` is taken to have no state.
- IBKR client classes, callbacks and order placement (`place_order`, `StopOrder`, `placeOrder`) are I/O and threading.
- main.py, fetch_dividends.py, `fetch_nasdaq_stocks` and `fetch_asx_stocks` are HTTP, pandas and file output.
- `time.sleep`, `print` and logging everywhere. The `TIME_WINDOW` constant is never used by the code.
- FetchData.ProcessTickers: symbols are strings or null. A truthy non-string symbol, such as the number 7, would be appended at fetch_data.py:10; if every symbol is a number, `sorted` succeeds and returns numbers, and a mix of numbers and strings makes `sorted` raise, which gives an empty list. Levels of the response that are present but not dictionaries are not modelled either.
- TrackRecommendations.OpenPositions: lists positions in table order. The SELECT at track_recommedations.py:142 has no ORDER BY, so PostgreSQL promises no order; only the membership stated by `OpenPositionsMembers` is promised by the source.
