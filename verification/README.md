# AGRO-VISION backend core in Dafny

AGRO-VISION is an agricultural dashboard. Its Python backend does the following:

- ingests market-price CSVs and daily weather from the Open-Meteo archive;
- joins the two on calendar date;
- builds per-commodity autoregressive lag features;
- trains one price regressor per commodity;
- re-runs that pipeline on a schedule, writing a status document that the dashboard reads.

The web API adds a few pure rules: lag padding for price prediction, a health-label threshold and a greedy warehouse allocation. A separate report classifies regions into supply surplus or deficit.

This project models that core as pure Dafny functions over immutable record sequences, with these abstractions:

- pandas tables become sequences of datatypes;
- files become a folder of named entries (`Disk`);
- the HTTP exchange, the clock, the cell parsers and the regressor become inputs.

The two allocation loops are also written as imperative methods, and those methods are proved equal to the functional model.

| file | module | models |
|---|---|---|
| wrappers.dfy | `Wrappers` | `Option` / `Result` |
| strings.dfy | `Strings` | Python's string order, `str.replace` of one character, `prefix*suffix` globs |
| sorting.dfy | `Sorting` | a stable sort by integer key |
| tables.dfy | `Tables` | row types shared by the pipeline, timestamps and calendar days |
| price_ingest.dfy | `PriceIngest` | `fetch_prices_csv` after the CSV is read |
| weather_fetch.dfy | `WeatherFetch` | `fetch_weather_for_coords` |
| data_prep.dfy | `DataPrep` | `merge_prices_weather`, `make_price_lags` |
| disk.dfy | `Disk` | data and model folders |
| training.dfy | `Training` | `train_all_crops` |
| retrain.dfy | `Retrain` | `log_status`, the effective `ensure_datasets`, `retrain_models` |
| app_rules.dfy | `AppRules` | `predict_price` lag padding, `predict_health` label |
| supply_alloc.dfy | `SupplyAlloc` | `supply_alloc` |
| supply_analytics.dfy | `SupplyAnalytics` | `analyze_supply_chain` |

Timestamps are whole seconds (`Stamp`), and a calendar date is `Stamp / 86400`. Dafny's division floors, which matches `.dt.date` for dates before 1970 as well.

## Model

| member | source | states |
|---|---|---|
| PriceIngest.FirstPresent | backend/data_ingest.py:80-91 | The chosen header is the first candidate, in priority order, that is present. No candidate is present exactly when the result is None. |
| PriceIngest.Resolve | backend/data_ingest.py:97-106 | A rename picks a header exactly when some candidate is present, and it picks the first present candidate in priority order. |
| PriceIngest.PlanColumns | backend/data_ingest.py:80-116 | The price, date and commodity columns are each the first present candidate in priority order: `Modal_Price`, `Price`, `Max_Price`, `Min_Price`; then `date`, `Date`, `Price Date`, `PRICE DATE`; then `Commodity`, `Crop`, `Product`. A lowercase `commodity` column is also required to be non-blank exactly when a commodity candidate was renamed beside it. Resolution fails with "no price column" exactly when none of `Modal_Price`, `Price`, `Max_Price`, `Min_Price` is a header, so a lone lowercase `price` header is rejected. It fails with "duplicate price column" exactly when a candidate and a lowercase `price` header are both present. A missing date column or commodity column is reported as such, and is not an error. |
| PriceIngest.FirstSpellingWins | backend/data_ingest.py:80-110 | With `Modal_Price`, `date` and `Commodity` present (and no lowercase `price`), those three are the columns used, whatever other spellings are present. |
| PriceIngest.CleanRows | backend/data_ingest.py:116-124 | The output has no more rows than the input. Every surviving record comes from some input row, every row that cleans successfully survives, and every record has a price. With no commodity column, every commodity is `"Unknown"`. |
| PriceIngest.CleanRowsFilter | backend/data_ingest.py:116-124 | Cleaning is an order-preserving filter. An increasing list of row positions picks exactly the rows that clean successfully, and record `k` is the cleaned row at position `k` of that list, so no row is repeated, merged or reordered. |
| PriceIngest.Ingest | backend/data_ingest.py:72-131 | The two error cases hold if and only if their header conditions hold. On success, there are no more rows than input rows, the rows are sorted ascending by date, and every price is present. The surviving rows are exactly the input rows that clean successfully, each kept as often as it is cleaned: the result is a permutation of the cleaned rows. A table without a commodity column is labelled `"Unknown"`. |
| PriceIngest.SyntheticDatesEndToday | backend/data_ingest.py:88-91 | Without a date column, and when every row survives, there is one stamp per row. Consecutive stamps are a day apart, and the last one is the current time. |
| PriceIngest.AllRowsKept | backend/data_ingest.py:88-124 | Without a date column and with every row clean, no row is dropped, and row `k` gets the `k`-th synthetic stamp. |
| WeatherFetch.ParseDays | backend/data_ingest.py:58 | The time strings parse exactly when every one of them parses. The result has one day per string, in order. |
| WeatherFetch.Shape | backend/data_ingest.py:55-64 | A body that is not JSON is an error. A body without `daily` gives zero rows. The dates are parsed first, so an unparsable date is an error even when the arrays also differ in length. Parsed dates with arrays of different lengths are an error. A `daily` block succeeds if and only if every date parses and the arrays have one length. On success there is one row per entry of `time`, and row `i` holds the `i`-th value of each array, with an absent array read as empty. |
| WeatherFetch.FetchWeather | backend/data_ingest.py:20-66 | The first request goes to the archive for the days `today-1-days` through `today-1`. A second, forecast request for 7 days is issued if and only if the archive answered with a status other than 200. A transport failure propagates, and so does a 4xx/5xx status on the fallback. The outcome is the shaped body of the last response whenever that response does not raise, and a success is always that. |
| WeatherFetch.Render | backend/data_ingest.py:55-64 | A rendered `daily` block has every array present, all of one length, and one date per row. |
| WeatherFetch.ShapeRender | backend/data_ingest.py:55-64 | Shaping inverts rendering: rows stamped at midnight come back unchanged whenever the date parser reads back what the renderer writes. |
| WeatherFetch.ArchiveAnswers | backend/data_ingest.py:40-66 | An archive answering 200 is the only request made, and its rendered rows are returned unchanged. |
| Tables.CalendarDay | backend/data_prep.py:29-30 | The calendar day is the one whose 86400-second span contains the timestamp. |
| Sorting.SortBy | backend/data_ingest.py:125 | The result is sorted by key and is a permutation of the input. |
| Sorting.SortBySortedIsIdentity | backend/data_prep.py:39 | Sorting an already sorted sequence changes nothing. |
| DataPrep.WeatherOnFromTable | backend/data_prep.py:32 | Each weather value matched to a date comes from a weather row on that date. |
| DataPrep.JoinRow | backend/data_prep.py:32 | A price row yields one joined row per weather row on its date, or exactly one row with empty weather when there is none. Each joined row keeps the price row's date, commodity and price. |
| DataPrep.MergePricesWeather | backend/data_prep.py:21-33 | The left join never has fewer rows than the price table, and its size is the sum of the per-row multiplicities. |
| DataPrep.MergeInventsNoRows | backend/data_prep.py:32 | Every joined row derives from some price row. |
| DataPrep.MergeLosesNoRows | backend/data_prep.py:32 | Every price row appears in the join. |
| DataPrep.MergeOneToOne | backend/data_prep.py:29-32 | When no date repeats in the weather table, row `i` of the join is price row `i` with its date's weather, or with empty weather. |
| DataPrep.AdmissionFromHistory | backend/data_prep.py:39-45 | A row is kept if and only if its price and the `n` most recent earlier prices of its commodity are all present. Its `lag_k` is the k-th most recent of those prices. |
| DataPrep.FeaturesNext | backend/data_prep.py:41-45 | Each row adds exactly its own feature row, and only when it is ready. |
| DataPrep.MakePriceLags | backend/data_prep.py:35-45 | The one-pass loop with a per-commodity history computes the reference lag table. The output has no more rows than the input, and every output row has `n` lags. |
| DataPrep.HistorySkipsOtherCommodities | backend/data_prep.py:43 | Rows of other commodities do not change a commodity's history. |
| DataPrep.ConsecutiveShift | backend/data_prep.py:43 | For the next row of the same commodity, however many days later, `lag_1` is the earlier row's price and `lag_{k+1}` is the earlier row's `lag_k`. |
| DataPrep.OccurrencesPermutation | backend/data_prep.py:39 | Sorting by date does not change how many rows each commodity has. |
| DataPrep.RowsPerCommodity | backend/data_prep.py:39-45 | A fully priced commodity with `m` rows contributes `max(m - n, 0)` feature rows. |
| DataPrep.ConsecutiveRowsShift | backend/data_prep.py:43-45 | Consecutive feature rows of a fully priced commodity shift into each other. |
| Training.Distinct | backend/train_price_model.py:24 | `unique()` returns each commodity exactly once, in order of first appearance. |
| Training.Usable | backend/train_price_model.py:25 | A commodity's usable rows are exactly its rows with complete weather, since feature rows always carry their lags and price. |
| Training.UsableCounts | backend/train_price_model.py:25 | Each qualifying row is kept exactly as often as it occurs in the table, and every other row is kept zero times. |
| Training.UsableAppend | backend/train_price_model.py:25 | Filtering a split table is filtering each part and concatenating, so usable rows keep table order. |
| Training.ArtifactName | backend/train_price_model.py:37 | The artifact name is `price_rf_` + the commodity with spaces turned into `_` + `.joblib`. |
| Training.ArtifactNameInjective | backend/train_price_model.py:37 | Commodities without underscores never share an artifact name. |
| Training.TrainEach | backend/train_price_model.py:24-38 | On success, the result's keys are exactly the eligible commodities, and each entry holds the fit's error and the usable-row count. A failure is the error of the first eligible commodity whose fit raised. |
| Training.TrainEachStores | backend/train_price_model.py:37 | After a successful run, every eligible commodity that owns its artifact file finds its fitted model in that file. |
| Training.TrainEachKeepsOthers | backend/train_price_model.py:37 | No file outside the commodities' artifact names is touched. |
| Training.SkippedLeavesNoArtifact | backend/train_price_model.py:26-28 | A commodity with fewer than 50 usable rows is never written. |
| Training.TrainAllCrops | backend/train_price_model.py:16-39 | The keys of a successful result are exactly the commodities with at least 50 usable rows. Entries report the error and the row count. A failure names the error of an eligible commodity's fit. Artifacts are stored for sole owners, and no other file is touched. |
| Disk.Lookup | backend/retrain_scheduler.py:45 | A file is found exactly when an entry of that name exists, and the entry is returned. |
| Disk.Write | backend/retrain_scheduler.py:35-36 | After a write, the name holds the new file. Every other name is unchanged, and an existing name is replaced rather than appended. |
| Disk.WriteKeepsNamesUnique | backend/retrain_scheduler.py:35-36 | Writing never lists two files under one name. |
| Disk.Glob | backend/retrain_scheduler.py:71 | The glob yields exactly the entries whose names match. |
| Disk.GlobCounts | backend/retrain_scheduler.py:71 | Each matching entry is yielded as often as it is listed, and no other entry is yielded. |
| Disk.GlobAppend | backend/retrain_scheduler.py:71 | Globbing a split listing is globbing each part and concatenating, so matches keep listing order. |
| Disk.GlobSingle | backend/retrain_scheduler.py:71 | A one-entry listing globs to itself exactly when its name matches. |
| Retrain.StatusText | backend/retrain_scheduler.py:33 | With no error or an empty error, the status is used as given. Otherwise the status is `"failed: "` followed by the error. |
| Retrain.LogStatus | backend/retrain_scheduler.py:29-36 | The status file holds exactly the latest record, with the clock's stamp. No other file changes. |
| Retrain.EnsurePrices | backend/retrain_scheduler.py:100-104 | An existing price file means nothing happens. A missing bundled CSV raises `FileNotFoundError`. Otherwise, whether the bootstrap succeeds is whether ingestion succeeds, and on success both the cleaned table and the price file are saved in the target folder. |
| Retrain.EnsureWeather | backend/retrain_scheduler.py:106-110 | An existing weather file means nothing happens. Otherwise, a 365-day fetch at (19.0760, 72.8777) decides the outcome, and its rows are saved as the weather file. |
| Retrain.Ensure | backend/retrain_scheduler.py:95-110 | For the corrected bootstrap (see "## Findings"): after a normal return, both inputs exist. When both already existed, nothing happens. |
| Retrain.EnsureAsWritten | backend/retrain_scheduler.py:95-110 | As written, the job folder is never changed. |
| Retrain.WeatherSources | backend/retrain_scheduler.py:71-73 | The weather sources are the names of the `weather_*.csv` glob, one per match in glob order, or `weather_recent.csv` alone when none match. |
| Retrain.ReadWeather | backend/retrain_scheduler.py:75-78 | Concatenating the weather files succeeds if and only if every named file exists and is a weather table. A missing file is an error, and so is a file of the wrong layout. |
| Retrain.ReadWeatherAppend | backend/retrain_scheduler.py:75-78 | Reading a list of files is reading its halves: the first failure wins, and otherwise the rows are concatenated in file order. |
| Retrain.EmptyGlobMeansNoDefaultFile | backend/retrain_scheduler.py:71-73 | The fallback name only applies when that file is absent. |
| Retrain.ReadPrices | backend/retrain_scheduler.py:70 | A missing price file raises `FileNotFoundError` naming its path. A price table in the file is returned as it is, and a file of another layout is an error. |
| Retrain.Pipeline | backend/retrain_scheduler.py:69-86 | The stages run load, merge, lags with `n = 7`, write, train. A missing price file or weather file ends the run with that error. Only the model-ready table changes. A normal end means the table written is the lags of the merge and training succeeded on it. |
| Retrain.Finish | backend/retrain_scheduler.py:63-93 | The status is `"success"` if and only if no stage raised. Any exception is recorded as `"failed: <message>"`, or as plain `"failed"` for an empty message. Nothing but the status file changes afterwards. |
| Retrain.RetrainModels | backend/retrain_scheduler.py:61-93 | For the corrected bootstrap (see "## Findings"): reported success implies that the model-ready table exists and that every eligible, sole-owner commodity has an artifact. |
| Retrain.RetrainModelsAsWritten | backend/retrain_scheduler.py:61-110 | As written, a run never creates or removes the job folder's price file. |
| Retrain.AsWrittenNeverHeals | backend/retrain_scheduler.py:67-104 | As written, a job folder without the price file fails, and stays without it. |
| Retrain.BootstrapPersists | backend/retrain_scheduler.py:100-110 | After a successful corrected bootstrap, the next run finds both inputs and fetches nothing. |
| Retrain.FreshCheckoutSucceeds | backend/retrain_scheduler.py:61-110 | The corrected job succeeds on a fresh checkout. |
| Retrain.FreshCheckoutFailsAsWritten | backend/retrain_scheduler.py:61-110 | As written, the same checkout logs a `FileNotFoundError` for `backend/data/market_prices_real.csv`. |
| Retrain.MissingPriceFileLogged | backend/retrain_scheduler.py:70-93 | A run that reaches loading without the price file logs the error naming it. |
| AppRules.PadRecent | backend/app.py:80-81 | Seven or more prices are kept as they are. An empty list becomes seven prices of 1000. One to six prices are left-padded to seven with copies of the first. |
| AppRules.LagVector | backend/app.py:79-83 | The vector has exactly 7 lags, with `lag_1` the most recent price and `lag_k` the k-th most recent. Padding shows up as the first price, or as 1000 when the list is empty. |
| AppRules.HealthLabel | backend/app.py:69 | The label is `"healthy"` if and only if the probability exceeds 0.5, so 0.5 itself is `"stressed"`. |
| AppRules.LagVectorMatchesTraining | backend/app.py:79-83 | Predicting from a fully priced series gives exactly the lag features training builds for the next row. |
| SupplyAlloc.VisitOrder | backend/app.py:106 | Every warehouse is visited once, in descending capacity. |
| SupplyAlloc.ServeRegionShape | backend/app.py:106-112 | Each entry names the visited warehouse and hands out a positive amount. |
| SupplyAlloc.ServeRegionVisits | backend/app.py:106 | Entries only draw on visited warehouses. |
| SupplyAlloc.ServeRegionConserves | backend/app.py:105-112 | Handed out plus left over equals the demand, which equals what the capacities lost. A demand of zero or less hands out nothing. |
| SupplyAlloc.ServeRegionDraws | backend/app.py:108-111 | A capacity never rises and never drops below zero when drawn on. |
| SupplyAlloc.ServeRegionGetsMin | backend/app.py:105-112 | A positive demand is left short by exactly `max(demand - available, 0)`. |
| SupplyAlloc.AllocateRegionFacts | backend/app.py:104-114 | A demand of zero or less gives no entries. All entries are positive and belong to the region, at most one unfulfilled note comes last, and served plus unserved equals the demand. |
| SupplyAlloc.UnfulfilledIffShort | backend/app.py:105-114 | An unfulfilled note appears if and only if demand exceeds the available capacity. The fulfilled total is `min(demand, available)`. |
| SupplyAlloc.AllocateAllFacts | backend/app.py:102-114 | Across regions, no warehouse hands out more than it had. A negative capacity is never touched, and the capacity used equals the fulfilled total. |
| SupplyAlloc.ServeRegionPerWarehouse | backend/app.py:106-112 | In one region's pass, the entries naming a warehouse add up to what the warehouses with that id lost. |
| SupplyAlloc.AllocateAllPerWarehouse | backend/app.py:102-114 | Over a whole request, the entries naming a warehouse add up to what the warehouses with that id lost. |
| SupplyAlloc.SupplyAllocPerWarehouse | backend/app.py:97-115 | With distinct warehouse ids, each warehouse hands out exactly what its capacity lost: never more than a non-negative capacity, and nothing from a negative one. |
| SupplyAlloc.AllocateAllSplits | backend/app.py:104 | Regions are served in request order, each drawing on what earlier regions left. |
| SupplyAlloc.SupplyAlloc | backend/app.py:97-115 | Total capacity minus the fulfilled total equals the capacity left. |
| SupplyAlloc.ServeLoop | backend/app.py:105-114 | The imperative inner loop computes the functional region pass. |
| SupplyAlloc.AllocateLoop | backend/app.py:102-114 | The imperative outer loop computes the functional allocation. |
| SupplyAlloc.Allocate | backend/app.py:97-115 | The endpoint's loops compute `SupplyAlloc`. |
| SupplyAnalytics.Classify | backend/supply_analytics.py:11-12 | The deficit is demand minus capacity. The status is `"surplus"` if and only if the deficit is negative, so zero is `"deficit"`. |
| SupplyAnalytics.JoinKeys | backend/supply_analytics.py:10 | The join keys are the regions of either table, once each, in ascending order. |
| SupplyAnalytics.Product | backend/supply_analytics.py:10 | A key's rows pair every capacity with every demand. |
| SupplyAnalytics.ProductAt | backend/supply_analytics.py:10 | With `n` demands, row `i * n + j` of a key's rows pairs the `i`-th capacity with the `j`-th demand, so each pair of table rows gives exactly one joined row. |
| SupplyAnalytics.CapacitiesAtAppend | backend/supply_analytics.py:10 | A region's capacities over a split table are those of each part, in table order. |
| SupplyAnalytics.DemandsAtAppend | backend/supply_analytics.py:10 | A region's demands over a split table are those of each part, in table order. |
| SupplyAnalytics.Analyse | backend/supply_analytics.py:10-12 | A region appears if and only if it is in either table. The values come from the tables or are zero-filled, and the deficit and status rules hold for every row. |
| SupplyAnalytics.RegionMultiplicity | backend/supply_analytics.py:10 | A region's joined rows are exactly the product of its capacities with its demands, a missing side filled with one 0. So there are (supply rows or 1) × (demand rows or 1) of them, one per pair of table rows. |
| SupplyAnalytics.AnalyseOrderedByRegion | backend/supply_analytics.py:10 | The joined table lists its regions in ascending order, each region's rows together. |
| SupplyAnalytics.Summary | backend/supply_analytics.py:13 | The keys are exactly the statuses that occur, and each count equals the number of rows with that status. |
| SupplyAnalytics.SummaryAddsUp | backend/supply_analytics.py:13 | The two counts sum to the number of rows. |
| SupplyAnalytics.ReportSummaryAddsUp | backend/supply_analytics.py:10-13 | The report's counts sum to the number of joined rows. |

## Left out

- The CSV and JSON text, file reads and writes, and directory creation are not modelled. A file holds the table it was written with. A file holding the wrong kind of table stands for a CSV without the expected columns (`WrongLayout`), and its exact pandas message is not modelled.
- HTTP is an input. The server is a function from request to exchange. The 20-second timeout and the `timezone` parameters are not modelled.
- The clock is an input. `Env.now` is read once per run. The source reads `datetime.now()` separately for logging and for the status stamp.
- Random-forest fitting, `train_test_split`, MAE and `joblib` are abstract. `fit` is a parameter returning the held-out error or the exception message.
- Prices and weather values are `real`, so floating-point rounding and NaN are not modelled. The allocation amounts are integers, and the `int(take)` truncation of fractional amounts is not modelled.
- `pandas.sort_values` is modelled as a stable sort. The source uses the unstable default, so the order of rows with equal dates (and of warehouses with equal capacities) is a modelling choice.
- A `price` header next to a resolved price candidate is modelled as a failure, because `pd.to_numeric` cannot take the two-column frame. A lowercase `commodity` next to a candidate keeps both columns, and a row missing either value is dropped. The model takes the value from the candidate. The saved CSV then has two `commodity` columns. When it is read again at `retrain_scheduler.py:70`, pandas names the right-hand one `commodity.1`. So when the lowercase header stands to the left of the candidate, the lowercase column supplies the value downstream.
- `fetch_weather_for_coords` is modelled as written: daily arrays of different lengths make `pd.DataFrame` raise. A missing `daily` block, or all arrays missing, gives zero rows. Some arrays missing while others are present is a length mismatch, so it raises rather than yielding zero rows.
- `raise_for_status` is modelled as raising only for statuses 400 to 599. A fallback answering with a 1xx or 3xx status is shaped like a 200 response.
- No per-commodity fault isolation exists in the code, and none is modelled. An exception in one fit propagates and ends the run (`Training.TrainEach`). The artifacts already written stay written.
- `merge_prices_weather` copying its inputs holds by construction, since every function here is pure.
- The scheduler loop, `price_scheduler.py`, `weather_scheduler.py`, the shadowed first `ensure_datasets` (`retrain_scheduler.py:39-58`) and the React front end are left out. They are plumbing, dead code or display.
- The `/api/train` route, its duplicate `make_lags`, and the model lookup in `predict_price` are left out. The latter reads `backend/models` and does not replace spaces, unlike the trainer's root `models` folder and sanitised names.
- `WeatherFetch.FetchError` messages are an input (`Env.explain`), since their text comes from `requests`.
- `pd.to_datetime` on a whole column infers one date format from the first parsable value. The model parses each cell on its own with `Parsers.date`, so a column mixing formats is not modelled.
- SupplyAnalytics.Analyse: capacities and demands are integers, although CSV values may be fractional. A table row with an empty capacity or demand cell, which `fillna(0)` turns into 0, is not modelled. Only a region missing from one table is zero-filled.
- A NaN region in the supply or demand table is not modelled. Regions are strings, so `groupby(...).count()` counts every row.
- The printed summary and the `supply_analysis.csv` write in `analyze_supply_chain` are I/O and left out.
- The demand request is a sequence of (region, amount) pairs in insertion order. A JSON object cannot repeat a key, so repeated regions are not considered.
- SupplyAlloc.AllocateAllFacts: bounds the capacity each position loses, and `SupplyAlloc.SupplyAllocPerWarehouse` ties that loss to the entries naming the warehouse. The per-warehouse total is stated for distinct warehouse ids. With repeated ids, `SupplyAlloc.AllocateAllPerWarehouse` relates an id's total to all warehouses sharing it.
- DataPrep.WeatherOn: states only how many weather values a date has, and `DataPrep.WeatherOnFromTable` states where they come from. Their order is the weather table's order, which the join's row order follows without a separate lemma.

## Findings

| source | as written | input that shows it | evidently intended | confidence | as-written member | corrected member |
|---|---|---|---|---|---|---|
| backend/retrain_scheduler.py:100-110 | `ensure_datasets` checks `backend/data/` (`DATA_DIR` at line 21), but `save_prices`/`save_weather` write to the repository's `data/` (`data_ingest.py:11-12`). `retrain_models` then reads `backend/data/market_prices_real.csv` and raises `FileNotFoundError` on every run. | A fresh checkout: empty `backend/data/`, a bundled `Agriculture_price_dataset.csv`, and a weather server returning 200 without `daily` (`Retrain.FreshCheckout`, `Retrain.QuietEnv`). | The bootstrap saves into the folder it checks, so the first run creates the inputs and later runs reuse them. | high, by reading both paths; not executed | Retrain.FreshCheckoutFailsAsWritten | Retrain.FreshCheckoutSucceeds |
