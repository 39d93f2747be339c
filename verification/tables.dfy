/** Row types shared by the ingest, feature-building and training stages.
    A date-valued cell is a `Stamp` (seconds since the epoch); a calendar date
    is the day number `CalendarDay` extracts from it, as `.dt.date` does. */
module Tables {
  import opened Wrappers

  type Stamp = int

  const SecondsPerDay: int := 86400

  /** Truncates a timestamp to its calendar date (Euclidean division floors,
      so stamps before the epoch fall on the right day too). */
  function CalendarDay(t: Stamp): (d: int)
    ensures d * SecondsPerDay <= t < (d + 1) * SecondsPerDay
  {
    t / SecondsPerDay
  }

  /** The stamp at which calendar day `d` begins. */
  function Midnight(d: int): (t: Stamp)
    ensures CalendarDay(t) == d
  {
    d * SecondsPerDay
  }

  /** The four daily weather fields; each may be missing upstream. */
  datatype Weather = Weather(
    tempMax: Option<real>,
    tempMin: Option<real>,
    precipMm: Option<real>,
    windSpeed: Option<real>)
  {
    predicate Complete() {
      tempMax.Some? && tempMin.Some? && precipMm.Some? && windSpeed.Some?
    }
  }

  /** The weather fields of a price row that found no weather row on its date. */
  const NoWeather: Weather := Weather(None, None, None, None)

  /** A row of the canonical price table {date, commodity, price}. */
  datatype PriceRow = PriceRow(at: Stamp, commodity: string, price: Option<real>)

  /** A row of a daily weather table. */
  datatype WeatherRow = WeatherRow(at: Stamp, weather: Weather)

  /** A row of the price table left-joined with weather on calendar date. */
  datatype MergedRow = MergedRow(day: int, commodity: string, price: Option<real>, weather: Weather)

  /** A model-ready row: `lags[k]` is the column `lag_{k+1}`. */
  datatype FeatureRow = FeatureRow(day: int, commodity: string, price: real, lags: seq<real>, weather: Weather)
}
