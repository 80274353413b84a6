# Drawdown screeners for Japanese listed equities — a Dafny model

The repository screens tickers listed on the J-Quants market-data service by
how far their price has fallen. Two screeners share one loop shape: fetch each
ticker's daily quotes, skip any ticker whose request or data fails, compute one
metric, keep the ticker when the metric passes a threshold, sort stably and
keep the first `top_n`.

- `stock_search.search_drawdown` requests a window ending twelve weeks before
  today and `lookback_days` long. It reads `AdjustmentClose`, needs at least 30
  numeric prices and computes **latest price / peak price**, a number in
  (0, 1]. A ticker is kept when that ratio is at or below `threshold`, and the
  kept tickers are ranked in ascending order. The result is written as
  `code,name` lines.
- `make_chart.search_drawdown` finds the first price column and the first
  date column among several aliases. It keeps the last `lookback_days` rows
  and computes the **maximum drawdown** `|min(price / running max - 1)|`, a
  number in [0, 1). A ticker is kept when that drawdown is at least
  `threshold`, and the kept tickers are ranked in descending order. The codes
  are written one per line.
- `get_param` looks up dotted names in a YAML configuration. The configuration
  is loaded through a one-entry cache, and `reload_config` clears and refills
  that cache.

Files:
- `wrappers.dfy`: `Option` and `Result`.
- `text.dfy`: `str.split` and `str.join` on one character, and `str.strip`.
- `series.dfy`: max, min and last of a price series.
- `frame.dfy`: the tabular operations both screeners use. These are row-key
  fallback, column aliases, the date sort, `tail`, and `to_numeric(...).dropna()`.
- `ranking.dfy`: the shared retain / stable-sort / slice pipeline. It is
  written over an abstract "keep" function from ticker to optional metric.
- `stock_search.dfy`, `make_chart.dfy`, `config.dfy`: the three core files.

The HTTP fetch is a function parameter from ticker (and window) to a
`Response`. A `Response` is either `Raised` (no reply, or an undecodable body)
or a status plus a JSON body of named row lists. Today's date is an integer
day number parameter. The configuration file system is a function parameter
`disk` from path to the parsed document. That document is absent when the
file does not exist.

The two screeners' loops are `method`s with `for` loops. Each is proved to
return exactly `Codes(Ranked(tickers, Keep(...), descending, topN))`. That
specification function's properties are lemmas in `Ranking`: sorted, stable,
a prefix, only kept tickers, and failure isolation. The one-slot cache is a
class whose methods update the cached entry and the miss counter.

Two behaviours of the code worth noting:
- `stock_search` skips a ticker only when the status is 400–599, because that
  is what `raise_for_status()` raises on. A 1xx or 3xx reply is therefore
  processed, not treated as a failed request. `make_chart` skips every status
  other than 200.
- `make_chart.search_drawdown` is called with its own defaults (20, 252, 0.3).
  The configured values are not passed to it.

## Model

| member | source | states |
|---|---|---|
| StockSearch.RequestWindow | stock_search.py:57-59 | `to` is twelve weeks (84 days) before today and the window spans exactly `lookback_days` days |
| StockSearch.PriceSeries | stock_search.py:66-89 | the request fails exactly for a raised call or a 4xx/5xx status; rows are missing exactly when `daily_quotes`, `data` and `quotes` are all absent or empty; the ticker lacks a price column exactly when no row has `AdjustmentClose`; a series is produced exactly when the rows hold at least 30 numeric `AdjustmentClose` values, whatever else they hold, and it is exactly those values in the order of the rows sorted by `Date` (else `date`), so the last one is the latest close; in received order when there is no date column; all positive when the reply's prices are |
| StockSearch.Ratio | stock_search.py:92-95 | latest over peak lies in (0, 1] and equals 1 exactly when the latest price is the peak |
| StockSearch.Assess | stock_search.py:86-97 | a ticker yields a ratio exactly when its series is produced, and the ratio is that series' latest/peak, in (0, 1] |
| StockSearch.KeepMeans | stock_search.py:92-102 | a ticker is appended exactly when its ratio is at or below the threshold; the appended score is that ratio, in (0, threshold], of a series of at least 30 prices |
| StockSearch.SearchDrawdown | stock_search.py:50-111 | the loop's result equals the codes of the kept tickers, stably sorted ascending by ratio and cut to `top_n`; no more than `top_n` codes |
| StockSearch.ScreenSound | stock_search.py:88-111 | every returned ticker is a listed ticker with at least 30 prices and ratio in (0, threshold]; the result is ascending and at most `top_n` long |
| StockSearch.ScreenComplete | stock_search.py:97-111 | with `top_n` at least the number of tickers, every listed ticker with at least 30 prices and a ratio at or below the threshold is returned |
| StockSearch.ThreeTickerExample | stock_search.py:97-111 | ratios 0.9, 0.4, 0.3 with threshold 0.5 and `top_n` 2 give the last two tickers, lowest ratio first |
| StockSearch.RefreshToken | stock_search.py:120-123 | a token is accepted exactly when the value is a string with a non-whitespace character; the token used is the stripped string, non-empty and already stripped |
| StockSearch.DisplayName | stock_search.py:146 | `CompanyName` when present and non-empty, else `CompanyNameEnglish` when present, else empty |
| StockSearch.CodeToName | stock_search.py:146 | the map has a key exactly for each listed `Code` |
| StockSearch.CodeToNameLastWins | stock_search.py:146 | a code listed several times maps to the name of its last record |
| StockSearch.ResultLines | stock_search.py:147 | one `code,name` line per result in result order, with an empty name for an unknown code |
| StockSearch.ResultTextReadsBack | stock_search.py:147-149 | the written file splits on newlines back into the lines; the text before each line's first comma is its code; no results give an empty file |
| MakeChart.PriceSeries | make_chart.py:32-66 | the request fails exactly for a raised call or a status other than 200; rows are missing exactly when `daily_quotes`, `data` and `results` are all absent or empty; the price column is missing exactly when no alias is a column; a series is produced exactly when the last `lookback_days` date-ordered rows hold a numeric value of the first price alias, and it is those values; when the window covers every row, a series is produced exactly when any numeric price exists and it holds all of them; a series is non-empty, at most `lookback_days` long and positive when the reply's prices are |
| MakeChart.RunningMaxBounds | make_chart.py:69 | the running maximum is at least the price at each point and never decreases |
| MakeChart.RunningMaxAttained | make_chart.py:69 | `cummax` at each point is the largest price so far: at least every earlier price and equal to one of them |
| MakeChart.RunningMaxOfNonDecreasing | make_chart.py:69 | for prices that never fall the running maximum is the price series itself |
| MakeChart.Drawdowns | make_chart.py:70 | each drawdown lies in (-1, 0] and is 0 exactly where the price equals its running maximum |
| MakeChart.MaxDrawdown | make_chart.py:71-72 | the absolute maximum drawdown lies in [0, 1) |
| MakeChart.MaxDrawdownIsLargestFall | make_chart.py:69-72 | the maximum drawdown is the largest fall `1 - later / earlier` over every earlier/later pair of prices: no fall exceeds it and one equals it |
| MakeChart.MaxDrawdownZeroIff | make_chart.py:69-72 | the maximum drawdown is 0 exactly when the prices never fall |
| MakeChart.KeepMeans | make_chart.py:64-75 | a ticker is appended exactly when its maximum drawdown is at least the threshold; the appended score is that drawdown, in [threshold, 1), of a non-empty series of at most `lookback_days` prices |
| MakeChart.Assess | make_chart.py:64-72 | a ticker yields a drawdown exactly when its series is produced, and the drawdown is that series' maximum drawdown, in [0, 1) |
| MakeChart.SearchDrawdown | make_chart.py:16-80 | the loop's result equals the codes of the kept tickers, stably sorted descending by drawdown and cut to `top_n`; no more than `top_n` codes |
| MakeChart.ScreenSound | make_chart.py:62-80 | every returned ticker is listed, has a non-empty series of at most `lookback_days` prices and a drawdown in [threshold, 1); the result is descending and at most `top_n` long |
| MakeChart.ScreenComplete | make_chart.py:74-80 | with `top_n` at least the number of tickers, every listed ticker whose drawdown reaches the threshold is returned |
| MakeChart.SearchDrawdownWithDefaults | make_chart.py:131 | `main`'s call uses `top_n` 20, `lookback_days` 252 and `threshold` 0.3, and returns at most 20 codes |
| MakeChart.AllTickers | make_chart.py:83-93 | the codes of all listing records in order; the comprehension fails exactly when some record has no `Code` |
| MakeChart.TickerFileReadsBack | make_chart.py:133-134 | `tickers.txt` splits on newlines back into the codes; no codes give an empty file |
| Frame.FirstNonEmpty | stock_search.py:75 | the `or` chain over row keys is empty exactly when every key is absent or empty, and otherwise is the first non-empty list |
| Frame.FirstPresent | make_chart.py:43-56 | no column exactly when no alias is a column; otherwise the first alias that is |
| Frame.ResolveColumn | make_chart.py:43-56 | the alias-search loop with `break` returns the first alias present in the rows |
| Frame.OrderByDate | stock_search.py:82-84 | the rows are reordered, not changed: sorted by the first date alias that is a column, and in received order when none is |
| Frame.OrderByDateNumeric | make_chart.py:52-64 | ordering by date keeps every column and the multiset of numeric values of each column; a table without the column has no numeric values |
| Frame.SortByDate | stock_search.py:82-84 | rows sorted by date are a permutation of the rows, with missing dates last |
| Frame.Tail | make_chart.py:62 | `tail(n)` is a suffix of length min(n, rows), and for negative n all but the first -n rows |
| Frame.NumericAppend | stock_search.py:86 | coercing and dropping non-numeric values is row by row, so it keeps the order of what survives |
| Ranking.StableSort | stock_search.py:109 | `list.sort` by score gives a permutation of the results, ordered by score |
| Ranking.StableSortStable | make_chart.py:79 | entries with equal scores keep their relative order (Python's sort is stable) |
| Ranking.SliceTo | stock_search.py:111 | `results[:top_n]` is a prefix of length min(top_n, n), or all but the last -top_n entries for negative `top_n` |
| Ranking.RetainedAppend | stock_search.py:64-102 | tickers are processed independently: the results of a concatenation are the concatenation of the results |
| Ranking.FailureIsolated | stock_search.py:104-107 | a ticker that fails or is not kept leaves the results of the tickers before and after it unchanged |
| Ranking.RetainedMembers | make_chart.py:74-75 | an entry is in the results exactly when its code is a listed ticker kept with that score |
| Ranking.RankedSpec | stock_search.py:109-111 | the result is sorted, no longer than `top_n`, a prefix of all sorted results, made of kept tickers, and all kept tickers when `top_n` is at least their number |
| Ranking.RankedComplete | stock_search.py:109-111 | when `top_n` is at least the number of tickers, every kept ticker is in the result |
| Ranking.RankedTiesInEncounterOrder | make_chart.py:79-80 | tickers with equal metric appear in the order they were encountered |
| Config.Loaded | get_param.py:15-20 | the result is `{}` exactly when the file is missing or the document is false-valued (empty, `null`, `0`, `[]`, ...); otherwise it is the parsed document |
| Config.Walk | get_param.py:34-42 | the lookup returns `default` or a value stored inside the configuration; what it finds is stated by `Config.GetPresent` and `Config.GetDotted` |
| Config.Resolve | get_param.py:33-42 | the lookup loop with early return equals the lookup function on the split name |
| Config.GetDotted | get_param.py:36-38 | looking up `a.rest` is looking up `rest` inside the value under `a` |
| Config.GetThroughScalar | get_param.py:37-40 | descending through a non-mapping value gives `default` |
| Config.GetPresent | get_param.py:36-42 | a top-level key that is present yields exactly the value stored under it |
| Config.GetStoredNull | get_param.py:37-42 | a key present with a `null` value yields `null`, not `default` |
| Config.GetMissingKey | get_param.py:37-40 | a missing top-level key yields `default`, with or without further segments |
| Config.MissingFileDefaults | get_param.py:16-17 | a missing file or an empty document makes every lookup return `default` |
| Config.ConfigCache.LoadConfig | get_param.py:10-20 | a cache hit returns the stored configuration and reads nothing; a miss reads the file once and replaces the single entry; the configuration returned is a truthy document or `{}` |
| Config.ConfigCache.GetParam | get_param.py:23-42 | a lookup (with `default` `null` and the path `config.yaml` unless others are given) loads through the cache and returns the lookup of `name` in the cached configuration |
| Config.ConfigCache.CacheClear | get_param.py:49 | the cache is empty and its statistics are reset |
| Config.ConfigCache.ReloadConfig | get_param.py:45-50 | afterwards the cache holds exactly the file's current contents for `path`, after one read |
| Text.JoinSplit | get_param.py:36 | joining the split segments with the separator gives back the name |
| Text.SplitJoin | make_chart.py:134 | splitting a newline-joined list of newline-free items gives back the items |
| Text.Strip | stock_search.py:123 | the stripped token is a contiguous part of the value with only whitespace removed on each side, and it neither starts nor ends with whitespace |
| Text.StripIdempotent | stock_search.py:123 | stripping twice is stripping once |
| Text.StripEmptyIff | stock_search.py:120 | stripping gives the empty string exactly when the value is all whitespace |

## Left out

- HTTP: authentication, the refresh-token exchange, `get_all_info` and timeouts are not modelled. Each ticker's reply is a function parameter.
- `get_financial_data`, charts and logging are not part of this model.
- The orchestration in both `main` functions is not modelled. This includes the unbound `headers` when the token exchange fails, which is left out as an I/O bug.
- `make_chart.main`'s own configuration read is not modelled. Only `get_param` is.
- A JSON payload that is not an object is not modelled. It raises in the source, so the ticker is skipped.
- A value under a row key that is not a list of objects is not modelled. A list of scalars does not raise in `pd.DataFrame`: its frame has no price column, so `make_chart` skips the ticker at make_chart.py:48-49. Other values are not modelled either.
- StockSearch.SearchDrawdown: a `threshold` that is not a number is not modelled. In the source it makes every comparison raise, so every ticker is skipped.
- StockSearch.SearchDrawdown: a missing `lookback_days` (`None`) is not modelled. In the source the window arithmetic at stock_search.py:59 raises outside the `try`, so `search_drawdown` itself fails; the model takes an integer.
- StockSearch.SearchDrawdown: a missing `top_n` (`None`) is not modelled. In the source `results[:None]` returns everything; the model takes an integer.
- Frame.NumericCell: numeric strings are not modelled. pandas would coerce them, but the model treats only `Num` cells as numbers.
- Frame.SortByDate: only date cells (`Day`) are ordered. Every other cell in the date column, and a row without it, sorts last, which matches pandas only for a missing or null date. These cases are not modelled:
  - text that is not a date, which pandas orders by string comparison, so an empty string sorts first;
  - a date column made only of numbers, which pandas sorts numerically but the model places among the missing dates, in no claimed order;
  - a mix of strings and numbers, which makes pandas raise.
  The order among rows with equal dates is not claimed, because pandas' default sort is not stable.
- Prices are exact reals, so IEEE rounding in the ratio and the drawdowns is not modelled. Positivity of the prices is assumed through `PositiveFetch`. A zero or negative price would divide by zero or give a meaningless ratio in the source.
- Config: YAML parse errors, unreadable files and non-string mapping keys are not modelled. The document is given already parsed, with string keys.
- Config.ConfigCache: `str` and `Path` arguments that name the same file are different cache keys in the source. The model has one string per path.
- Config.ConfigCache: the cached dictionary is returned by reference in the source, so a caller that mutates it changes the cache. Values in the model are immutable.
- Config.ConfigCache: only `cache_info().misses` is modelled, not hits.
