/** The daily weather fetch (`fetch_weather_for_coords`): request window,
    archive-to-forecast fallback, and shaping of the `daily` block into rows.
    The HTTP exchange is a parameter: `server` answers each request. */
module WeatherFetch {
  import opened Wrappers
  import opened Tables

  datatype Request =
    | Archive(lat: real, lon: real, startDay: int, endDay: int)
    | Forecast(lat: real, lon: real, forecastDays: nat)

  /** The `daily` block of a response: the parallel date array and one array
      per field; `None` is a key absent from the block. */
  datatype Daily = Daily(
    time: Option<seq<string>>,
    tempMax: Option<seq<Option<real>>>,
    tempMin: Option<seq<Option<real>>>,
    precipSum: Option<seq<Option<real>>>,
    windMax: Option<seq<Option<real>>>)

  /** A response body: not JSON at all, or a JSON object with or without `daily`. */
  datatype Payload = NotJson | Document(daily: Option<Daily>)

  /** What `requests.get` produced: a response, or a raised network error. */
  datatype Exchange = Response(status: int, payload: Payload) | TransportFailure(reason: string)

  datatype FetchError =
    | Transport(reason: string)  // connection error or timeout, from either call
    | HttpError(status: int)     // `raise_for_status` on the fallback response
    | InvalidJson                // `r.json()` on a non-JSON body
    | RaggedColumns              // DataFrame built from arrays of different lengths
    | UnparsableDate             // `pd.to_datetime` on a malformed date string

  /** The requests made, in order, and the table or the raised error. */
  datatype Fetch = Fetch(issued: seq<Request>, outcome: Result<seq<WeatherRow>, FetchError>)

  const OkStatus: int := 200
  const FallbackForecastDays: nat := 7

  /** `raise_for_status` raises for client and server errors only. */
  predicate RaisesForStatus(status: int) {
    400 <= status < 600
  }

  function ArrayOr<T>(a: Option<seq<T>>): seq<T> {
    a.GetOr([])
  }

  /** Parses every date string, failing on the first that does not parse. */
  function ParseDays(times: seq<string>, parseDay: string -> Option<int>): (r: Option<seq<int>>)
    ensures r.Some? <==> forall i :: 0 <= i < |times| ==> parseDay(times[i]).Some?
    ensures r.Some? ==> |r.value| == |times|
    ensures r.Some? ==> forall i :: 0 <= i < |times| ==> parseDay(times[i]) == Some(r.value[i])
    decreases |times|
  {
    if times == [] then Some([])
    else
      match parseDay(times[0])
      case None => None
      case Some(d) =>
        match ParseDays(times[1..], parseDay)
        case None => None
        case Some(ds) => Some([d] + ds)
  }

  predicate SameLengths(d: Daily) {
    var n := |ArrayOr(d.time)|;
    |ArrayOr(d.tempMax)| == n && |ArrayOr(d.tempMin)| == n
    && |ArrayOr(d.precipSum)| == n && |ArrayOr(d.windMax)| == n
  }

  /** Turns a response body into weather rows, one per entry of `time`. */
  function Shape(body: Payload, parseDay: string -> Option<int>): (r: Result<seq<WeatherRow>, FetchError>)
    ensures body == NotJson <==> r == Failure(InvalidJson)
    ensures body == Document(None) ==> r == Success([])
    ensures body.Document? && body.daily.Some? && ParseDays(ArrayOr(body.daily.value.time), parseDay).None? ==>
              r == Failure(UnparsableDate)
    ensures (body.Document? && body.daily.Some? && ParseDays(ArrayOr(body.daily.value.time), parseDay).Some?
             && !SameLengths(body.daily.value)) ==> r == Failure(RaggedColumns)
    ensures body.Document? && body.daily.Some? ==>
              (r.Success? <==> ParseDays(ArrayOr(body.daily.value.time), parseDay).Some? && SameLengths(body.daily.value))
    ensures r.Success? && body.daily.Some? ==> |r.value| == |ArrayOr(body.daily.value.time)|
    ensures r.Success? && body.daily.Some? ==>
              var d := body.daily.value;
              forall i :: 0 <= i < |r.value| ==>
                && parseDay(ArrayOr(d.time)[i]) == Some(CalendarDay(r.value[i].at))
                && r.value[i].weather == Weather(ArrayOr(d.tempMax)[i], ArrayOr(d.tempMin)[i],
                                                 ArrayOr(d.precipSum)[i], ArrayOr(d.windMax)[i])
  {
    match body
    case NotJson => Failure(InvalidJson)
    case Document(None) => Success([])
    case Document(Some(d)) =>
      match ParseDays(ArrayOr(d.time), parseDay)
      case None => Failure(UnparsableDate)
      case Some(days) =>
        if !SameLengths(d) then Failure(RaggedColumns)
        else
          Success(seq(|days|, i requires 0 <= i < |days| =>
            WeatherRow(Midnight(days[i]), Weather(ArrayOr(d.tempMax)[i], ArrayOr(d.tempMin)[i],
                                                  ArrayOr(d.precipSum)[i], ArrayOr(d.windMax)[i]))))
  }

  /** `fetch_weather_for_coords(lat, lon, days)` on calendar day `today`. */
  function FetchWeather(lat: real, lon: real, days: int, today: int,
                        server: Request -> Exchange, parseDay: string -> Option<int>): (f: Fetch)
    ensures 1 <= |f.issued| <= 2
    ensures f.issued[0] == Archive(lat, lon, today - 1 - days, today - 1)
    ensures |f.issued| == 2 <==> server(f.issued[0]).Response? && server(f.issued[0]).status != OkStatus
    ensures |f.issued| == 2 ==> f.issued[1] == Forecast(lat, lon, FallbackForecastDays)
    ensures server(f.issued[0]).TransportFailure? ==> f.outcome == Failure(Transport(server(f.issued[0]).reason))
    ensures |f.issued| == 2 && server(f.issued[1]).TransportFailure? ==>
              f.outcome == Failure(Transport(server(f.issued[1]).reason))
    ensures |f.issued| == 2 && server(f.issued[1]).Response? && RaisesForStatus(server(f.issued[1]).status) ==>
              f.outcome == Failure(HttpError(server(f.issued[1]).status))
    ensures f.outcome.Success? ==>
              var last := server(f.issued[|f.issued| - 1]);
              last.Response? && !RaisesForStatus(last.status) && f.outcome == Shape(last.payload, parseDay)
    ensures var last := server(f.issued[|f.issued| - 1]);
              last.Response? && !RaisesForStatus(last.status) ==> f.outcome == Shape(last.payload, parseDay)
  {
    var primary := Archive(lat, lon, today - 1 - days, today - 1);
    match server(primary)
    case TransportFailure(m) => Fetch([primary], Failure(Transport(m)))
    case Response(status, body) =>
      if status == OkStatus then Fetch([primary], Shape(body, parseDay))
      else
        var fallback := Forecast(lat, lon, FallbackForecastDays);
        match server(fallback)
        case TransportFailure(m) => Fetch([primary, fallback], Failure(Transport(m)))
        case Response(status2, body2) =>
          if RaisesForStatus(status2) then Fetch([primary, fallback], Failure(HttpError(status2)))
          else Fetch([primary, fallback], Shape(body2, parseDay))
  }

  /** The `daily` block a server would send for `rows`: every array present,
      dates written with `showDay`. */
  function Render(rows: seq<WeatherRow>, showDay: int -> string): (body: Payload)
    ensures body.Document? && body.daily.Some? && SameLengths(body.daily.value)
    ensures |ArrayOr(body.daily.value.time)| == |rows|
  {
    Document(Some(Daily(
      Some(seq(|rows|, i requires 0 <= i < |rows| => showDay(CalendarDay(rows[i].at)))),
      Some(seq(|rows|, i requires 0 <= i < |rows| => rows[i].weather.tempMax)),
      Some(seq(|rows|, i requires 0 <= i < |rows| => rows[i].weather.tempMin)),
      Some(seq(|rows|, i requires 0 <= i < |rows| => rows[i].weather.precipMm)),
      Some(seq(|rows|, i requires 0 <= i < |rows| => rows[i].weather.windSpeed)))))
  }

  /** Shaping inverts rendering for rows stamped at midnight, whenever the date
      parser reads back what `showDay` writes. */
  lemma ShapeRender(rows: seq<WeatherRow>, showDay: int -> string, parseDay: string -> Option<int>)
    requires forall d: int :: parseDay(showDay(d)) == Some(d)
    requires forall i :: 0 <= i < |rows| ==> rows[i].at == Midnight(CalendarDay(rows[i].at))
    ensures Shape(Render(rows, showDay), parseDay) == Success(rows)
  {
    var d := Render(rows, showDay).daily.value;
    var r := Shape(Render(rows, showDay), parseDay);
    assert forall i :: 0 <= i < |rows| ==> parseDay(ArrayOr(d.time)[i]) == Some(CalendarDay(rows[i].at));
    assert r.Success?;
    assert |r.value| == |rows|;
    forall i | 0 <= i < |rows|
      ensures r.value[i] == rows[i]
    {
      assert parseDay(ArrayOr(d.time)[i]) == Some(CalendarDay(r.value[i].at));
      assert r.value[i].at == Midnight(CalendarDay(r.value[i].at));
      assert r.value[i].weather == rows[i].weather;
    }
    assert r.value == rows;
  }

  /** An archive that answers 200 with rendered rows is the whole exchange:
      one request, and the rows come back unchanged. */
  lemma ArchiveAnswers(lat: real, lon: real, days: int, today: int, rows: seq<WeatherRow>,
                       server: Request -> Exchange, showDay: int -> string, parseDay: string -> Option<int>)
    requires server(Archive(lat, lon, today - 1 - days, today - 1)) == Response(OkStatus, Render(rows, showDay))
    requires forall d: int :: parseDay(showDay(d)) == Some(d)
    requires forall i :: 0 <= i < |rows| ==> rows[i].at == Midnight(CalendarDay(rows[i].at))
    ensures FetchWeather(lat, lon, days, today, server, parseDay)
              == Fetch([Archive(lat, lon, today - 1 - days, today - 1)], Success(rows))
  {
    ShapeRender(rows, showDay, parseDay);
  }
}
