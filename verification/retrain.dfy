/** The retraining job (`retrain_models` with the effective `ensure_datasets`
    and `log_status`): bootstrap missing inputs, merge, build lags, write the
    model-ready table, train, and record the outcome in the status file.
    Clock, HTTP server, cell parsers and the regressor are fields of `Env`. */
module Retrain {
  import opened Wrappers
  import opened Tables
  import opened Disk
  import PriceIngest
  import WeatherFetch
  import DataPrep
  import Training
  import Strings

  /** The four folders involved: `backend/` (the bundled dataset),
      `backend/data/` (the job's data folder), `data/` at the repository root
      (the ingestion helpers' data folder) and `models/` at the root. */
  datatype Folders = Folders(backend: Folder, backendData: Folder, rootData: Folder, models: Folder)

  datatype Place = BackendData | RootData

  const PriceFile: string := "market_prices_real.csv"
  const WeatherFile: string := "weather_recent.csv"
  const BundledFile: string := "Agriculture_price_dataset.csv"
  const ProcessedFile: string := "processed_prices.csv"
  const ModelReadyFile: string := "prices_model_ready.csv"
  const StatusFile: string := "retrain_status.json"
  const WeatherGlobPrefix: string := "weather_"
  const CsvSuffix: string := ".csv"

  const DefaultLat: real := 19.0760
  const DefaultLon: real := 72.8777
  const BootstrapWeatherDays: int := 365
  const LagCount: nat := 7

  const Succeeded: string := "success"
  const Failed: string := "failed"
  const FailedPrefix: string := "failed: "

  datatype Env = Env(
    repo: string,                                         // absolute path of the repository
    now: Stamp,                                           // the clock, read once per run
    parsers: PriceIngest.Parsers,
    server: WeatherFetch.Request -> WeatherFetch.Exchange,
    parseDay: string -> Option<int>,
    explain: WeatherFetch.FetchError -> string,           // `str(e)` of a weather exception
    fit: Training.Fitter)

  datatype RunError =
    | Missing(path: string)                  // FileNotFoundError from `read_csv`
    | WrongLayout(path: string)              // a file without the expected table
    | PriceTrouble(ingest: PriceIngest.IngestError)
    | WeatherTrouble(fetch: WeatherFetch.FetchError)
    | FitRaised(message: string)

  /** A state of the folders and the exception escaping so far, if any. */
  datatype Stage = Stage(fs: Folders, error: Option<RunError>)

  function PathOf(env: Env, place: Place, name: string): string {
    env.repo + (if place == BackendData then "/backend/data/" else "/data/") + name
  }

  /** `str(e)` of the exception that ends a run. */
  function Describe(env: Env, e: RunError): string {
    match e
    case Missing(p) => "[Errno 2] No such file or directory: '" + p + "'"
    case WrongLayout(_) => "Missing column provided to 'parse_dates': 'date'"
    case PriceTrouble(pe) =>
      if pe.NoPriceColumn? then "\U{274C} No price-related column found in dataset!"
      else "arg must be a list, tuple, 1-d array, or Series"
    case WeatherTrouble(w) => env.explain(w)
    case FitRaised(m) => m
  }

  function Folder(fs: Folders, place: Place): Folder {
    if place == BackendData then fs.backendData else fs.rootData
  }

  function Save(fs: Folders, place: Place, name: string, file: File): (r: Folders)
    ensures r.backend == fs.backend && r.models == fs.models
    ensures Lookup(Folder(r, place), name) == Some(file)
    ensures forall n :: n != name ==> Lookup(Folder(r, place), n) == Lookup(Folder(fs, place), n)
    ensures place == BackendData ==> r.rootData == fs.rootData
    ensures place == RootData ==> r.backendData == fs.backendData
  {
    if place == BackendData then fs.(backendData := Write(fs.backendData, name, file))
    else fs.(rootData := Write(fs.rootData, name, file))
  }

  /** The status line `log_status` writes: a truthy error (not None, not
      empty) turns any status into a failure carrying the message. */
  function StatusText(status: string, error: Option<string>): (r: string)
    ensures error.None? ==> r == status
    ensures error == Some("") ==> r == status
    ensures error.Some? && error.value != "" ==> Strings.StartsWith(r, FailedPrefix) && r[|FailedPrefix|..] == error.value
  {
    if error.None? || error.value == "" then status else FailedPrefix + error.value
  }

  /** `log_status`: the status document is replaced, never appended to. */
  function LogStatus(data: Folder, status: string, error: Option<string>, now: Stamp): (r: Folder)
    ensures Lookup(r, StatusFile) == Some(StatusJson(now, StatusText(status, error)))
    ensures forall n :: n != StatusFile ==> Lookup(r, n) == Lookup(data, n)
  {
    Write(data, StatusFile, StatusJson(now, StatusText(status, error)))
  }

  /** The price half of `ensure_datasets`; `target` is the folder the
      ingestion helpers save into. */
  function EnsurePrices(fs: Folders, env: Env, target: Place): (st: Stage)
    ensures Exists(fs.backendData, PriceFile) ==> st == Stage(fs, None)
    ensures st.error.None? && target == BackendData ==> Exists(st.fs.backendData, PriceFile)
    ensures st.fs.backend == fs.backend && st.fs.models == fs.models
    ensures target == RootData ==> st.fs.backendData == fs.backendData
    ensures !Exists(fs.backend, BundledFile) && !Exists(fs.backendData, PriceFile) ==>
              st == Stage(fs, Some(Missing(env.repo + "/backend/" + BundledFile)))
    ensures !Exists(fs.backendData, PriceFile) && Lookup(fs.backend, BundledFile).Some?
            && Lookup(fs.backend, BundledFile).value.RawPrices? ==>
              var ingested := PriceIngest.Ingest(Lookup(fs.backend, BundledFile).value.table, env.now, env.parsers);
              && (st.error.None? <==> ingested.Success?)
              && (ingested.Success? ==>
                    && Lookup(Folder(st.fs, target), PriceFile) == Some(Prices(ingested.value))
                    && Lookup(Folder(st.fs, target), ProcessedFile) == Some(Prices(ingested.value)))
  {
    if Exists(fs.backendData, PriceFile) then Stage(fs, None)
    else
      match Lookup(fs.backend, BundledFile)
      case None => Stage(fs, Some(Missing(env.repo + "/backend/" + BundledFile)))
      case Some(RawPrices(t)) =>
        (match PriceIngest.Ingest(t, env.now, env.parsers)
         case Failure(e) => Stage(fs, Some(PriceTrouble(e)))
         case Success(rows) =>
           var cleaned := Save(fs, target, ProcessedFile, Prices(rows));
           var saved := Save(cleaned, target, PriceFile, Prices(rows));
           assert Lookup(Folder(saved, target), ProcessedFile) == Some(Prices(rows)) by {
             FileNamesDiffer();
           }
           Stage(saved, None))
      case Some(_) => Stage(fs, Some(WrongLayout(env.repo + "/backend/" + BundledFile)))
  }

  /** The weather half of `ensure_datasets`: a year of history at the
      default coordinates, fetched only when the job's weather file is absent. */
  function EnsureWeather(fs: Folders, env: Env, target: Place): (st: Stage)
    ensures Exists(fs.backendData, WeatherFile) ==> st == Stage(fs, None)
    ensures st.error.None? && target == BackendData ==> Exists(st.fs.backendData, WeatherFile)
    ensures st.fs.backend == fs.backend && st.fs.models == fs.models
    ensures target == RootData ==> st.fs.backendData == fs.backendData
    ensures target == BackendData ==> forall n :: n != WeatherFile ==>
              Lookup(st.fs.backendData, n) == Lookup(fs.backendData, n)
    ensures !Exists(fs.backendData, WeatherFile) ==>
              var f := WeatherFetch.FetchWeather(DefaultLat, DefaultLon, BootstrapWeatherDays,
                                                 CalendarDay(env.now), env.server, env.parseDay);
              && (st.error.None? <==> f.outcome.Success?)
              && (f.outcome.Success? ==> Lookup(Folder(st.fs, target), WeatherFile) == Some(WeatherTable(f.outcome.value)))
  {
    if Exists(fs.backendData, WeatherFile) then Stage(fs, None)
    else
      var f := WeatherFetch.FetchWeather(DefaultLat, DefaultLon, BootstrapWeatherDays,
                                         CalendarDay(env.now), env.server, env.parseDay);
      match f.outcome
      case Failure(e) => Stage(fs, Some(WeatherTrouble(e)))
      case Success(ws) =>
        var saved := Save(fs, target, WeatherFile, WeatherTable(ws));
        assert Lookup(Folder(saved, target), WeatherFile).Some?;
        Stage(saved, None)
  }

  function EnsureInto(fs: Folders, env: Env, target: Place): Stage {
    var p := EnsurePrices(fs, env, target);
    if p.error.Some? then p else EnsureWeather(p.fs, env, target)
  }

  /** `ensure_datasets` as written: it checks the job's folder but the
      helpers it calls save into the root data folder. */
  function EnsureAsWritten(fs: Folders, env: Env): (st: Stage)
    ensures st.fs.backendData == fs.backendData
  {
    EnsureInto(fs, env, RootData)
  }

  /** `ensure_datasets` with the helpers saving into the folder it checks:
      when it returns normally, both inputs the job reads exist. */
  function Ensure(fs: Folders, env: Env): (st: Stage)
    ensures st.error.None? ==> Exists(st.fs.backendData, PriceFile) && Exists(st.fs.backendData, WeatherFile)
    ensures Exists(fs.backendData, PriceFile) && Exists(fs.backendData, WeatherFile) ==> st == Stage(fs, None)
    ensures st.fs.backend == fs.backend && st.fs.models == fs.models
  {
    var p := EnsurePrices(fs, env, BackendData);
    if p.error.Some? then p
    else
      var w := EnsureWeather(p.fs, env, BackendData);
      assert Lookup(w.fs.backendData, PriceFile) == Lookup(p.fs.backendData, PriceFile);
      w
  }

  /** The files the job reads weather from: the `weather_*.csv` glob in
      listing order, or the default file name when nothing matches. */
  function WeatherSources(data: Folder): (r: seq<string>)
    ensures |r| >= 1
    ensures Glob(data, WeatherGlobPrefix, CsvSuffix) == [] ==> r == [WeatherFile]
    ensures Glob(data, WeatherGlobPrefix, CsvSuffix) != [] ==> forall i :: 0 <= i < |r| ==>
              Exists(data, r[i]) && Strings.MatchesStar(r[i], WeatherGlobPrefix, CsvSuffix)
    ensures var g := Glob(data, WeatherGlobPrefix, CsvSuffix);
              g != [] ==> |r| == |g| && forall i :: 0 <= i < |r| ==> r[i] == g[i].name
  {
    var g := Glob(data, WeatherGlobPrefix, CsvSuffix);
    if g == [] then [WeatherFile]
    else
      var r := seq(|g|, i requires 0 <= i < |g| => g[i].name);
      assert forall i :: 0 <= i < |r| ==> g[i] in data && Exists(data, r[i]) by {
        forall i | 0 <= i < |r|
          ensures g[i] in data && Exists(data, r[i])
        {
          assert g[i] in g;
          var k :| 0 <= k < |data| && data[k] == g[i];
        }
      }
      r
  }

  /** `pd.concat` of the named weather files, in order. */
  function ReadWeather(data: Folder, names: seq<string>, env: Env): (r: Result<seq<WeatherRow>, RunError>)
    ensures r.Success? ==> forall i :: 0 <= i < |names| ==> Lookup(data, names[i]).Some? && Lookup(data, names[i]).value.WeatherTable?
    ensures (exists i :: 0 <= i < |names| && !Exists(data, names[i])) ==> r.Failure?
    ensures r.Failure? ==> r.error.Missing? || r.error.WrongLayout?
    ensures (forall i :: 0 <= i < |names| ==> Lookup(data, names[i]).Some? && Lookup(data, names[i]).value.WeatherTable?)
              ==> r.Success?
    decreases |names|
  {
    if names == [] then Success([])
    else
      var rest := ReadWeather(data, names[1..], env);
      assert forall i :: 1 <= i < |names| ==> names[i] == names[1..][i - 1];
      match Lookup(data, names[0])
      case None => Failure(Missing(PathOf(env, BackendData, names[0])))
      case Some(WeatherTable(ws)) =>
        (match rest
         case Failure(e) => Failure(e)
         case Success(more) => Success(ws + more))
      case Some(_) => Failure(WrongLayout(PathOf(env, BackendData, names[0])))
  }

  /** The default weather file is itself matched by the glob, so the
      fallback list only comes into play when that file is absent. */
  lemma EmptyGlobMeansNoDefaultFile(data: Folder)
    requires Glob(data, WeatherGlobPrefix, CsvSuffix) == []
    ensures !Exists(data, WeatherFile)
  {
    assert Strings.MatchesStar(WeatherFile, WeatherGlobPrefix, CsvSuffix) by {
      assert WeatherFile[..|WeatherGlobPrefix|] == WeatherGlobPrefix;
      assert WeatherFile[|WeatherFile| - |CsvSuffix|..] == CsvSuffix;
    }
    forall k | 0 <= k < |data|
      ensures data[k].name != WeatherFile
    {
      assert data[k] in data;
    }
  }

  function ReadPrices(data: Folder, env: Env): (r: Result<seq<PriceRow>, RunError>)
    ensures !Exists(data, PriceFile) <==> r == Failure(Missing(PathOf(env, BackendData, PriceFile)))
    ensures r.Success? ==> Lookup(data, PriceFile) == Some(Prices(r.value))
    ensures Lookup(data, PriceFile).Some? && Lookup(data, PriceFile).value.Prices? ==>
              r == Success(Lookup(data, PriceFile).value.prices)
    ensures Lookup(data, PriceFile).Some? && !Lookup(data, PriceFile).value.Prices? ==>
              r == Failure(WrongLayout(PathOf(env, BackendData, PriceFile)))
  {
    match Lookup(data, PriceFile)
    case None => Failure(Missing(PathOf(env, BackendData, PriceFile)))
    case Some(Prices(ps)) => Success(ps)
    case Some(_) => Failure(WrongLayout(PathOf(env, BackendData, PriceFile)))
  }

  /** Everything after `ensure_datasets`: load, merge, lag, write the
      model-ready table, train into the models folder. */
  function Pipeline(fs: Folders, env: Env): (st: Stage)
    ensures !Exists(fs.backendData, PriceFile) ==> st == Stage(fs, Some(Missing(PathOf(env, BackendData, PriceFile))))
    ensures Lookup(fs.backendData, PriceFile).Some? && Lookup(fs.backendData, PriceFile).value.Prices?
            && Glob(fs.backendData, WeatherGlobPrefix, CsvSuffix) == [] ==>
              st == Stage(fs, Some(Missing(PathOf(env, BackendData, WeatherFile))))
    ensures st.fs.backend == fs.backend && st.fs.rootData == fs.rootData
    ensures forall n :: n != ModelReadyFile ==> Lookup(st.fs.backendData, n) == Lookup(fs.backendData, n)
    ensures st.error.None? ==>
              && Lookup(fs.backendData, PriceFile).Some? && Lookup(fs.backendData, PriceFile).value.Prices?
              && ReadWeather(fs.backendData, WeatherSources(fs.backendData), env).Success?
              && var feats := DataPrep.LagFeatures(DataPrep.MergePricesWeather(
                                Lookup(fs.backendData, PriceFile).value.prices,
                                ReadWeather(fs.backendData, WeatherSources(fs.backendData), env).value), LagCount);
                 && Lookup(st.fs.backendData, ModelReadyFile) == Some(ModelReady(feats))
                 && Training.TrainAllCrops(feats, env.fit, fs.models).outcome.Success?
    ensures st.error.None? ==> st.fs.models == Training.TrainAllCrops(
              Lookup(st.fs.backendData, ModelReadyFile).value.features, env.fit, fs.models).models
    ensures st.error.Some? && st.error.value.FitRaised? ==>
              Lookup(st.fs.backendData, ModelReadyFile).Some? && Lookup(st.fs.backendData, ModelReadyFile).value.ModelReady? &&
              exists c :: Training.Eligible(Lookup(st.fs.backendData, ModelReadyFile).value.features, c)
  {
    match ReadPrices(fs.backendData, env)
    case Failure(e) => Stage(fs, Some(e))
    case Success(ps) =>
      var sources := WeatherSources(fs.backendData);
      if Glob(fs.backendData, WeatherGlobPrefix, CsvSuffix) == [] then
        EmptyGlobMeansNoDefaultFile(fs.backendData);
        assert sources == [WeatherFile];
        Stage(fs, Some(Missing(PathOf(env, BackendData, WeatherFile))))
      else
        match ReadWeather(fs.backendData, sources, env)
        case Failure(e) => Stage(fs, Some(e))
        case Success(ws) =>
          Train(fs, env, DataPrep.LagFeatures(DataPrep.MergePricesWeather(ps, ws), LagCount))
  }

  /** The end of the job: write the model-ready table, then train on it. */
  function Train(fs: Folders, env: Env, feats: seq<FeatureRow>): (st: Stage)
    ensures st.fs.backend == fs.backend && st.fs.rootData == fs.rootData
    ensures Lookup(st.fs.backendData, ModelReadyFile) == Some(ModelReady(feats))
    ensures forall n :: n != ModelReadyFile ==> Lookup(st.fs.backendData, n) == Lookup(fs.backendData, n)
    ensures st.fs.models == Training.TrainAllCrops(feats, env.fit, fs.models).models
    ensures st.error.None? <==> Training.TrainAllCrops(feats, env.fit, fs.models).outcome.Success?
    ensures st.error.Some? ==> st.error.value.FitRaised? && exists c :: Training.Eligible(feats, c)
  {
    var written := fs.(backendData := Write(fs.backendData, ModelReadyFile, ModelReady(feats)));
    var t := Training.TrainAllCrops(feats, env.fit, fs.models);
    var trained := written.(models := t.models);
    match t.outcome
    case Failure(m) => Stage(trained, Some(FitRaised(m)))
    case Success(_) => Stage(trained, None)
  }

  /** Where a run ends, given the stage `ensure_datasets` left: an escaping
      exception skips the rest of the job. */
  function Run(env: Env, ensured: Stage): Stage {
    if ensured.error.Some? then ensured else Pipeline(ensured.fs, env)
  }

  /** The `try`/`except` around the job: the outcome is logged either way. */
  function Finish(env: Env, ensured: Stage): (r: Folders)
    ensures Lookup(r.backendData, StatusFile).Some? && Lookup(r.backendData, StatusFile).value.StatusJson?
    ensures Lookup(r.backendData, StatusFile).value.lastRun == env.now
    ensures StatusAfter(r) == Succeeded <==> Run(env, ensured).error.None?
    ensures Run(env, ensured).error.Some? ==> Strings.StartsWith(StatusAfter(r), Failed)
    ensures Run(env, ensured).error.Some? && Describe(env, Run(env, ensured).error.value) != "" ==>
              StatusAfter(r) == FailedPrefix + Describe(env, Run(env, ensured).error.value)
    ensures Run(env, ensured).error.Some? && Describe(env, Run(env, ensured).error.value) == "" ==>
              StatusAfter(r) == Failed
    ensures forall n :: n != StatusFile ==> Lookup(r.backendData, n) == Lookup(Run(env, ensured).fs.backendData, n)
    ensures r.backend == Run(env, ensured).fs.backend && r.rootData == Run(env, ensured).fs.rootData
    ensures r.models == Run(env, ensured).fs.models
  {
    var st := Run(env, ensured);
    match st.error
    case None => st.fs.(backendData := LogStatus(st.fs.backendData, Succeeded, None, env.now))
    case Some(e) =>
      var r := st.fs.(backendData := LogStatus(st.fs.backendData, Failed, Some(Describe(env, e)), env.now));
      assert Strings.StartsWith(StatusAfter(r), Failed) by {
        assert StatusAfter(r)[..|Failed|] == Failed;
      }
      assert StatusAfter(r) != Succeeded by {
        assert StatusAfter(r)[0] == Failed[0] != Succeeded[0];
      }
      r
  }

  function StatusAfter(r: Folders): string
    requires Lookup(r.backendData, StatusFile).Some? && Lookup(r.backendData, StatusFile).value.StatusJson?
  {
    Lookup(r.backendData, StatusFile).value.status
  }

  /** `retrain_models` with the corrected bootstrap: a run that reports
      success has written the model-ready table and stored a model for every
      commodity with enough complete rows. */
  function RetrainModels(fs: Folders, env: Env): (r: Folders)
    ensures Lookup(r.backendData, StatusFile).Some? && Lookup(r.backendData, StatusFile).value.StatusJson?
    ensures r.backend == fs.backend
    ensures StatusAfter(r) == Succeeded ==>
              && Lookup(r.backendData, ModelReadyFile).Some? && Lookup(r.backendData, ModelReadyFile).value.ModelReady?
              && var feats := Lookup(r.backendData, ModelReadyFile).value.features;
                 forall c :: Training.Eligible(feats, c) && Training.SoleOwner(feats, c) ==>
                   Lookup(r.models, Training.ArtifactName(c)).Some?
  {
    Finish(env, Ensure(fs, env))
  }

  /** `retrain_models` as written. */
  function RetrainModelsAsWritten(fs: Folders, env: Env): (r: Folders)
    ensures Lookup(r.backendData, StatusFile).Some? && Lookup(r.backendData, StatusFile).value.StatusJson?
    ensures Exists(r.backendData, PriceFile) == Exists(fs.backendData, PriceFile)
  {
    var ensured := EnsureAsWritten(fs, env);
    var r := Finish(env, ensured);
    assert Lookup(r.backendData, PriceFile) == Lookup(Run(env, ensured).fs.backendData, PriceFile);
    assert Lookup(Run(env, ensured).fs.backendData, PriceFile) == Lookup(fs.backendData, PriceFile);
    r
  }

  /** As written, a job folder without the price file can never recover:
      the run fails, and the file is still missing for the next run. */
  lemma AsWrittenNeverHeals(fs: Folders, env: Env)
    requires !Exists(fs.backendData, PriceFile)
    ensures Strings.StartsWith(StatusAfter(RetrainModelsAsWritten(fs, env)), Failed)
    ensures !Exists(RetrainModelsAsWritten(fs, env).backendData, PriceFile)
  {
    var ensured := EnsureAsWritten(fs, env);
    var r := RetrainModelsAsWritten(fs, env);
    assert Run(env, ensured).error.Some?;
    assert Lookup(r.backendData, PriceFile) == Lookup(Run(env, ensured).fs.backendData, PriceFile);
  }

  /** With the correction, a successful bootstrap is done once: whatever the
      rest of the run does, the next run finds both inputs and fetches nothing. */
  lemma BootstrapPersists(fs: Folders, env: Env)
    requires Ensure(fs, env).error.None?
    ensures Ensure(RetrainModels(fs, env), env) == Stage(RetrainModels(fs, env), None)
  {
    var ensured := Ensure(fs, env);
    var r := RetrainModels(fs, env);
    FileNamesDiffer();
    RunKeepsInputs(env, ensured, PriceFile);
    RunKeepsInputs(env, ensured, WeatherFile);
    assert Lookup(r.backendData, PriceFile) == Lookup(ensured.fs.backendData, PriceFile);
    assert Lookup(r.backendData, WeatherFile) == Lookup(ensured.fs.backendData, WeatherFile);
    assert Exists(r.backendData, PriceFile) && Exists(r.backendData, WeatherFile);
  }

  /** A run rewrites only the model-ready table and the status file of the
      job folder. */
  lemma RunKeepsInputs(env: Env, ensured: Stage, n: string)
    requires n != ModelReadyFile && n != StatusFile
    ensures Lookup(Finish(env, ensured).backendData, n) == Lookup(ensured.fs.backendData, n)
  {
  }

  /** A fresh checkout: an empty job folder, a bundled CSV with a
      `Modal_Price` header and no rows, and a weather archive answering 200
      without a `daily` block. The corrected job succeeds on it; the job as
      written reports the missing price file. */
  function FreshCheckout(): Folders {
    Folders([Entry(BundledFile, RawPrices(PriceIngest.RawTable(["Modal_Price"], [])))], [], [], [])
  }

  function QuietEnv(): Env {
    Env("/srv/agro-vision", 0,
        PriceIngest.Parsers(_ => None, _ => None),
        _ => WeatherFetch.Response(200, WeatherFetch.Document(None)),
        _ => None,
        _ => "",
        _ => Success(0.0))
  }

  lemma EmptyBundleIngests(env: Env)
    ensures PriceIngest.Ingest(PriceIngest.RawTable(["Modal_Price"], []), env.now, env.parsers) == Success([])
  {
    var t := PriceIngest.RawTable(["Modal_Price"], []);
    assert "Modal_Price" in t.headers;
    assert PriceIngest.PlanColumns(t.headers).Success?;
  }

  lemma QuietWeatherFetch()
    ensures WeatherFetch.FetchWeather(DefaultLat, DefaultLon, BootstrapWeatherDays, CalendarDay(QuietEnv().now),
                                      QuietEnv().server, QuietEnv().parseDay).outcome == Success([])
  {
  }

  lemma FileNamesDiffer()
    ensures ProcessedFile != PriceFile && ProcessedFile != WeatherFile && PriceFile != WeatherFile
    ensures StatusFile != PriceFile && StatusFile != WeatherFile && ModelReadyFile != PriceFile
    ensures ModelReadyFile != WeatherFile
  {
    assert ProcessedFile[0] != PriceFile[0] && ProcessedFile[0] != WeatherFile[0] && PriceFile[0] != WeatherFile[0];
    assert StatusFile[0] != PriceFile[0] && StatusFile[0] != WeatherFile[0] && ModelReadyFile[0] != PriceFile[0];
    assert ModelReadyFile[0] != WeatherFile[0];
  }

  lemma FreshPricesBootstrap(target: Place)
    ensures EnsurePrices(FreshCheckout(), QuietEnv(), target) ==
              Stage(Save(Save(FreshCheckout(), target, ProcessedFile, Prices([])), target, PriceFile, Prices([])), None)
  {
    var fs := FreshCheckout();
    assert Lookup(fs.backend, BundledFile) == Some(RawPrices(PriceIngest.RawTable(["Modal_Price"], [])));
    EmptyBundleIngests(QuietEnv());
  }

  lemma FreshWrites()
    ensures Save(Save(FreshCheckout(), BackendData, ProcessedFile, Prices([])), BackendData, PriceFile, Prices([])) ==
              FreshCheckout().(backendData := FreshData()[..2])
    ensures Save(FreshCheckout().(backendData := FreshData()[..2]), BackendData, WeatherFile, WeatherTable([])) ==
              FreshCheckout().(backendData := FreshData())
    ensures !Exists(FreshData()[..2], WeatherFile)
  {
    FileNamesDiffer();
    var e1 := Entry(ProcessedFile, Prices([]));
    var e2 := Entry(PriceFile, Prices([]));
    var e3 := Entry(WeatherFile, WeatherTable([]));
    assert FreshData()[..2] == [e1, e2];
    assert Write([], ProcessedFile, Prices([])) == [e1];
    assert Write([e1], PriceFile, Prices([])) == [e1, e2];
    assert Write([e1, e2], WeatherFile, WeatherTable([])) == [e1, e2, e3] by {
      assert [e1, e2][1..] == [e2];
      assert Write([e2], WeatherFile, WeatherTable([])) == [e2, e3];
    }
  }

  lemma FreshCheckoutBootstrap()
    ensures Ensure(FreshCheckout(), QuietEnv()) == Stage(FreshCheckout().(backendData := FreshData()), None)
  {
    FreshPricesBootstrap(BackendData);
    FreshWrites();
    QuietWeatherFetch();
  }

  lemma AsWrittenBootstrap()
    ensures EnsureAsWritten(FreshCheckout(), QuietEnv()).error.None?
    ensures EnsureAsWritten(FreshCheckout(), QuietEnv()).fs.backendData == []
  {
    FreshPricesBootstrap(RootData);
    var p := EnsurePrices(FreshCheckout(), QuietEnv(), RootData);
    assert p.error.None? && p.fs.backendData == [];
    QuietWeatherFetch();
    assert !Exists(p.fs.backendData, WeatherFile);
    assert EnsureWeather(p.fs, QuietEnv(), RootData).error.None?;
  }

  /** The job folder after the corrected bootstrap of `FreshCheckout`. */
  function FreshData(): Folder {
    [Entry(ProcessedFile, Prices([])), Entry(PriceFile, Prices([])), Entry(WeatherFile, WeatherTable([]))]
  }

  lemma FreshDataSources()
    ensures Glob(FreshData(), WeatherGlobPrefix, CsvSuffix) == [Entry(WeatherFile, WeatherTable([]))]
    ensures WeatherSources(FreshData()) == [WeatherFile]
  {
    var data := FreshData();
    assert !Strings.MatchesStar(ProcessedFile, WeatherGlobPrefix, CsvSuffix) by {
      assert ProcessedFile[..|WeatherGlobPrefix|] != WeatherGlobPrefix by {
        assert ProcessedFile[0] != WeatherGlobPrefix[0];
      }
    }
    assert !Strings.MatchesStar(PriceFile, WeatherGlobPrefix, CsvSuffix) by {
      assert PriceFile[..|WeatherGlobPrefix|] != WeatherGlobPrefix by {
        assert PriceFile[0] != WeatherGlobPrefix[0];
      }
    }
    assert Strings.MatchesStar(WeatherFile, WeatherGlobPrefix, CsvSuffix) by {
      assert WeatherFile[..|WeatherGlobPrefix|] == WeatherGlobPrefix;
      assert WeatherFile[|WeatherFile| - |CsvSuffix|..] == CsvSuffix;
    }
    assert Glob(data, WeatherGlobPrefix, CsvSuffix) == [Entry(WeatherFile, WeatherTable([]))];
  }

  lemma EmptyTablesTrainNothing(fit: Training.Fitter, models: Folder)
    ensures DataPrep.LagFeatures(DataPrep.MergePricesWeather([], []), LagCount) == []
    ensures Training.TrainAllCrops([], fit, models).outcome == Success(map[])
  {
    assert DataPrep.MergePricesWeather([], []) == [];
    assert Training.Commodities([]) == [];
  }

  lemma FreshDataPipeline()
    ensures Pipeline(FreshCheckout().(backendData := FreshData()), QuietEnv()).error.None?
  {
    var data := FreshData();
    var env := QuietEnv();
    FileNamesDiffer();
    assert data[1..][1..] == [Entry(WeatherFile, WeatherTable([]))];
    assert Lookup(data[1..][1..], WeatherFile) == Some(WeatherTable([]));
    assert Lookup(data[1..], PriceFile) == Some(Prices([]));
    assert Lookup(data[1..], WeatherFile) == Some(WeatherTable([]));
    assert Lookup(data, PriceFile) == Some(Prices([]));
    assert Lookup(data, WeatherFile) == Some(WeatherTable([]));
    assert ReadPrices(data, env) == Success([]);
    FreshDataSources();
    ReadSingleWeatherFile(data, WeatherFile, [], env);
    EmptyTablesTrainNothing(env.fit, []);
    PipelineSucceeds(FreshCheckout().(backendData := data), env, [], []);
  }

  /** The pipeline finishes normally once both inputs read and every
      eligible commodity trains. */
  lemma PipelineSucceeds(fs: Folders, env: Env, ps: seq<PriceRow>, ws: seq<WeatherRow>)
    requires ReadPrices(fs.backendData, env) == Success(ps)
    requires Glob(fs.backendData, WeatherGlobPrefix, CsvSuffix) != []
    requires ReadWeather(fs.backendData, WeatherSources(fs.backendData), env) == Success(ws)
    requires Training.TrainAllCrops(DataPrep.LagFeatures(DataPrep.MergePricesWeather(ps, ws), LagCount),
                                    env.fit, fs.models).outcome.Success?
    ensures Pipeline(fs, env).error.None?
  {
  }

  /** Reading a list of files is reading its two halves and concatenating:
      the first failure wins, and rows keep file order. */
  lemma {:induction false} ReadWeatherAppend(data: Folder, a: seq<string>, b: seq<string>, env: Env)
    ensures ReadWeather(data, a + b, env) ==
              match ReadWeather(data, a, env)
              case Failure(e) => Failure(e)
              case Success(xs) =>
                (match ReadWeather(data, b, env)
                 case Failure(e) => Failure(e)
                 case Success(ys) => Success(xs + ys))
    decreases |a|
  {
    if a == [] {
      assert a + b == b;
      assert ReadWeather(data, a, env) == Success([]);
      var rb := ReadWeather(data, b, env);
      if rb.Success? {
        assert [] + rb.value == rb.value;
      }
    } else {
      assert (a + b)[0] == a[0];
      assert (a + b)[1..] == a[1..] + b;
      ReadWeatherAppend(data, a[1..], b, env);
      match Lookup(data, a[0])
      case None =>
      case Some(WeatherTable(ws)) =>
        var ra, rb := ReadWeather(data, a[1..], env), ReadWeather(data, b, env);
        if ra.Success? && rb.Success? {
          assert ws + (ra.value + rb.value) == (ws + ra.value) + rb.value;
        }
      case Some(_) =>
    }
  }

  lemma ReadSingleWeatherFile(data: Folder, name: string, ws: seq<WeatherRow>, env: Env)
    requires Lookup(data, name) == Some(WeatherTable(ws))
    ensures ReadWeather(data, [name], env) == Success(ws)
  {
    assert [name][1..] == [];
    assert ReadWeather(data, [], env) == Success([]);
    assert ws + [] == ws;
  }

  /** The corrected job succeeds on a fresh checkout. */
  lemma FreshCheckoutSucceeds()
    ensures StatusAfter(RetrainModels(FreshCheckout(), QuietEnv())) == Succeeded
  {
    FreshCheckoutBootstrap();
    FreshDataPipeline();
  }

  /** The job as written fails on the same checkout, naming the price file
      it looked for in the job folder. */
  lemma FreshCheckoutFailsAsWritten()
    ensures StatusAfter(RetrainModelsAsWritten(FreshCheckout(), QuietEnv())) ==
              FailedPrefix + "[Errno 2] No such file or directory: '" + PathOf(QuietEnv(), BackendData, PriceFile) + "'"
  {
    AsWrittenBootstrap();
    MissingPriceFileLogged(QuietEnv(), EnsureAsWritten(FreshCheckout(), QuietEnv()));
  }

  /** A run that reaches the pipeline without the price file logs the
      `FileNotFoundError` naming it. */
  lemma MissingPriceFileLogged(env: Env, ensured: Stage)
    requires ensured.error.None? && !Exists(ensured.fs.backendData, PriceFile)
    ensures StatusAfter(Finish(env, ensured)) ==
              FailedPrefix + "[Errno 2] No such file or directory: '" + PathOf(env, BackendData, PriceFile) + "'"
  {
    assert Run(env, ensured).error == Some(Missing(PathOf(env, BackendData, PriceFile)));
  }
}
