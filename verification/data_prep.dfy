/** Feature building (`data_prep.py`): the calendar-date left join of prices
    onto weather, and per-commodity lag columns counted in observations. */
module DataPrep {
  import opened Wrappers
  import opened Tables
  import Sorting

  // ---------------------------------------------------------------------------
  // merge_prices_weather
  // ---------------------------------------------------------------------------

  /** The calendar dates of a weather table, row by row. */
  function WeatherDays(ws: seq<WeatherRow>): (r: seq<int>)
    ensures |r| == |ws|
    ensures forall j :: 0 <= j < |ws| ==> r[j] == CalendarDay(ws[j].at)
  {
    seq(|ws|, j requires 0 <= j < |ws| => CalendarDay(ws[j].at))
  }

  lemma WeatherDaysCons(ws: seq<WeatherRow>, day: int)
    requires ws != []
    ensures multiset(WeatherDays(ws))[day] ==
              (if CalendarDay(ws[0].at) == day then 1 else 0) + multiset(WeatherDays(ws[1..]))[day]
  {
    assert WeatherDays(ws) == [CalendarDay(ws[0].at)] + WeatherDays(ws[1..]);
  }

  /** Weather of every row of `ws` falling on calendar day `day`, in table order;
      there are as many as `day` occurs among the table's dates. */
  function WeatherOn(day: int, ws: seq<WeatherRow>): (r: seq<Weather>)
    ensures |r| == multiset(WeatherDays(ws))[day]
    decreases |ws|
  {
    if ws == [] then []
    else
      WeatherDaysCons(ws, day);
      var rest := WeatherOn(day, ws[1..]);
      if CalendarDay(ws[0].at) == day then [ws[0].weather] + rest else rest
  }

  /** Each weather value found for `day` is that of some row of `ws` on `day`. */
  lemma {:induction false} WeatherOnFromTable(day: int, ws: seq<WeatherRow>)
    ensures forall w :: w in WeatherOn(day, ws) ==>
              exists j :: 0 <= j < |ws| && CalendarDay(ws[j].at) == day && ws[j].weather == w
    decreases |ws|
  {
    if ws != [] {
      WeatherOnFromTable(day, ws[1..]);
      forall w | w in WeatherOn(day, ws)
        ensures exists j :: 0 <= j < |ws| && CalendarDay(ws[j].at) == day && ws[j].weather == w
      {
        if !(CalendarDay(ws[0].at) == day && w == ws[0].weather) {
          assert w in WeatherOn(day, ws[1..]);
          var j :| 0 <= j < |ws[1..]| && CalendarDay(ws[1..][j].at) == day && ws[1..][j].weather == w;
          assert ws[j + 1] == ws[1..][j];
        }
      }
    }
  }

  function Max1(k: nat): nat {
    if k == 0 then 1 else k
  }

  /** The rows one price row contributes to the left join. */
  function JoinRow(p: PriceRow, ws: seq<WeatherRow>): (r: seq<MergedRow>)
    ensures |r| == Max1(multiset(WeatherDays(ws))[CalendarDay(p.at)])
    ensures forall k :: 0 <= k < |r| ==>
              r[k].day == CalendarDay(p.at) && r[k].commodity == p.commodity && r[k].price == p.price
    ensures multiset(WeatherDays(ws))[CalendarDay(p.at)] == 0 ==> r[0].weather == NoWeather
    ensures multiset(WeatherDays(ws))[CalendarDay(p.at)] > 0 ==>
              forall k :: 0 <= k < |r| ==> r[k].weather == WeatherOn(CalendarDay(p.at), ws)[k]
  {
    var day := CalendarDay(p.at);
    var matches := WeatherOn(day, ws);
    if matches == [] then [MergedRow(day, p.commodity, p.price, NoWeather)]
    else seq(|matches|, k requires 0 <= k < |matches| => MergedRow(day, p.commodity, p.price, matches[k]))
  }

  /** Number of rows of the left join of `ps` onto `ws`. */
  function JoinSize(ps: seq<PriceRow>, ws: seq<WeatherRow>): nat {
    if ps == [] then 0
    else Max1(multiset(WeatherDays(ws))[CalendarDay(ps[0].at)]) + JoinSize(ps[1..], ws)
  }

  predicate Derives(m: MergedRow, p: PriceRow) {
    m.day == CalendarDay(p.at) && m.commodity == p.commodity && m.price == p.price
  }

  /** `prices_df.merge(weather_df, on="date", how="left")` after both date
      columns have been truncated to calendar dates: every price row survives,
      once per weather row sharing its date, or once with empty weather. */
  function MergePricesWeather(ps: seq<PriceRow>, ws: seq<WeatherRow>): (r: seq<MergedRow>)
    ensures |r| == JoinSize(ps, ws)
    ensures |r| >= |ps|
    decreases |ps|
  {
    if ps == [] then [] else JoinRow(ps[0], ws) + MergePricesWeather(ps[1..], ws)
  }

  /** The join invents no price rows: each result row carries the date,
      commodity and price of some price row. */
  lemma {:induction false} MergeInventsNoRows(ps: seq<PriceRow>, ws: seq<WeatherRow>)
    ensures forall k :: 0 <= k < |MergePricesWeather(ps, ws)| ==>
              exists i :: 0 <= i < |ps| && Derives(MergePricesWeather(ps, ws)[k], ps[i])
    decreases |ps|
  {
    if ps != [] {
      MergeInventsNoRows(ps[1..], ws);
      var head := JoinRow(ps[0], ws);
      var rest := MergePricesWeather(ps[1..], ws);
      var r := MergePricesWeather(ps, ws);
      assert r == head + rest;
      forall k | 0 <= k < |r|
        ensures exists i :: 0 <= i < |ps| && Derives(r[k], ps[i])
      {
        if k < |head| {
          assert Derives(r[k], ps[0]);
        } else {
          assert r[k] == rest[k - |head|];
          var i :| 0 <= i < |ps[1..]| && Derives(rest[k - |head|], ps[1..][i]);
          assert Derives(r[k], ps[i + 1]);
        }
      }
    } else {
      assert MergePricesWeather(ps, ws) == [];
    }
  }

  lemma JoinRowHead(p: PriceRow, ws: seq<WeatherRow>)
    ensures JoinRow(p, ws) != [] && Derives(JoinRow(p, ws)[0], p)
  {
  }

  /** The join loses no price rows: price row `i` shows up in the result. */
  lemma {:induction false} MergeLosesNoRows(ps: seq<PriceRow>, ws: seq<WeatherRow>, i: nat)
    requires i < |ps|
    ensures exists k :: 0 <= k < |MergePricesWeather(ps, ws)| && Derives(MergePricesWeather(ps, ws)[k], ps[i])
    decreases |ps|
  {
    var head := JoinRow(ps[0], ws);
    var rest := MergePricesWeather(ps[1..], ws);
    var r := MergePricesWeather(ps, ws);
    assert r == head + rest;
    if i == 0 {
      JoinRowHead(ps[0], ws);
      assert r[0] == head[0];
    } else {
      MergeLosesNoRows(ps[1..], ws, i - 1);
      assert ps[i] == ps[1..][i - 1];
      var k :| 0 <= k < |rest| && Derives(rest[k], ps[i]);
      assert r[|head| + k] == rest[k];
    }
  }

  /** When no calendar date occurs twice in the weather table (as on the
      archive path), the join is one-to-one: row `i` of the result is price
      row `i` with its date's weather, or with empty weather. */
  lemma {:induction false} MergeOneToOne(ps: seq<PriceRow>, ws: seq<WeatherRow>)
    requires forall d :: multiset(WeatherDays(ws))[d] <= 1
    ensures |MergePricesWeather(ps, ws)| == |ps|
    ensures forall i :: 0 <= i < |ps| ==>
              var m := MergePricesWeather(ps, ws)[i];
              var day := CalendarDay(ps[i].at);
              Derives(m, ps[i])
              && m.weather == (if multiset(WeatherDays(ws))[day] == 0 then NoWeather else WeatherOn(day, ws)[0])
    decreases |ps|
  {
    if ps != [] {
      MergeOneToOne(ps[1..], ws);
      var head := JoinRow(ps[0], ws);
      assert |head| == 1;
      assert MergePricesWeather(ps, ws) == head + MergePricesWeather(ps[1..], ws);
    }
  }

  // ---------------------------------------------------------------------------
  // make_price_lags
  // ---------------------------------------------------------------------------

  function ByDay(m: MergedRow): int {
    m.day
  }

  /** Prices of the rows before position `i` whose commodity is `c`, oldest
      first: commodity `c`'s sequence of observations up to row `i`. */
  function History(s: seq<MergedRow>, i: nat, c: string): seq<Option<real>>
    requires i <= |s|
  {
    if i == 0 then []
    else History(s, i - 1, c) + (if s[i - 1].commodity == c then [s[i - 1].price] else [])
  }

  /** Column `lag_{k+1}` of row `i`: the price `k + 1` observations back in the
      row's own commodity sequence, missing when there are not that many. */
  function Lag(s: seq<MergedRow>, i: nat, k: nat): Option<real>
    requires i < |s|
  {
    var h := History(s, i, s[i].commodity);
    if k < |h| then h[|h| - 1 - k] else None
  }

  /** Row admission of `dropna(subset=lag_cols + ["price"])`; weather is not consulted. */
  predicate Admitted(s: seq<MergedRow>, i: nat, n: nat)
    requires i < |s|
  {
    s[i].price.Some? && forall k :: 0 <= k < n ==> Lag(s, i, k).Some?
  }

  function FeatureAt(s: seq<MergedRow>, i: nat, n: nat): FeatureRow
    requires i < |s| && Admitted(s, i, n)
  {
    FeatureRow(s[i].day, s[i].commodity, s[i].price.value,
               seq(n, k requires 0 <= k < n => Lag(s, i, k).value), s[i].weather)
  }

  /** The admitted rows among the first `upto` rows of `s`, in order. */
  function Features(s: seq<MergedRow>, n: nat, upto: nat): (r: seq<FeatureRow>)
    requires upto <= |s|
    ensures |r| <= upto
    ensures forall f :: f in r ==> |f.lags| == n
  {
    if upto == 0 then []
    else Features(s, n, upto - 1) + (if Admitted(s, upto - 1, n) then [FeatureAt(s, upto - 1, n)] else [])
  }

  /** Reference meaning of `make_price_lags(df, n)`: sort by date, then keep
      every row whose price and `n` lags are all present. */
  function LagFeatures(rows: seq<MergedRow>, n: nat): seq<FeatureRow> {
    var s := Sorting.SortBy(rows, ByDay);
    Features(s, n, |s|)
  }

  /** Admission and lag values of row `i` read off its commodity history. */
  lemma AdmissionFromHistory(s: seq<MergedRow>, i: nat, n: nat)
    requires i < |s|
    ensures var h := History(s, i, s[i].commodity);
            Admitted(s, i, n) <==> s[i].price.Some? && n <= |h| && forall j :: |h| - n <= j < |h| ==> h[j].Some?
    ensures var h := History(s, i, s[i].commodity);
            Admitted(s, i, n) ==>
              FeatureAt(s, i, n) == FeatureRow(s[i].day, s[i].commodity, s[i].price.value,
                                               seq(n, k requires 0 <= k < n => h[|h| - 1 - k].value), s[i].weather)
  {
    var h := History(s, i, s[i].commodity);
    if s[i].price.Some? && n <= |h| && forall j :: |h| - n <= j < |h| ==> h[j].Some? {
      assert forall k :: 0 <= k < n ==> Lag(s, i, k) == h[|h| - 1 - k];
    } else if s[i].price.Some? && n <= |h| {
      var j :| |h| - n <= j < |h| && h[j].None?;
      assert Lag(s, i, |h| - 1 - j).None?;
    } else if s[i].price.Some? {
      assert Lag(s, i, |h|).None?;
    }
  }

  /** `seen` holds every commodity's history up to row `i`. */
  ghost predicate SeenIsHistory(seen: map<string, seq<Option<real>>>, s: seq<MergedRow>, i: nat)
    requires i <= |s|
  {
    && (forall c :: c in seen ==> seen[c] == History(s, i, c))
    && (forall c :: c !in seen ==> History(s, i, c) == [])
  }

  lemma HistoryStep(seen: map<string, seq<Option<real>>>, s: seq<MergedRow>, i: nat)
    requires i < |s| && SeenIsHistory(seen, s, i)
    ensures var c := s[i].commodity;
      SeenIsHistory(seen[c := (if c in seen then seen[c] else []) + [s[i].price]], s, i + 1)
  {
    assert forall c :: History(s, i + 1, c) == History(s, i, c) + (if c == s[i].commodity then [s[i].price] else []);
  }

  /** The price and the last `n` observations of `h` are all present. */
  predicate Ready(h: seq<Option<real>>, n: nat, price: Option<real>) {
    price.Some? && n <= |h| && forall j :: |h| - n <= j < |h| ==> h[j].Some?
  }

  /** The last `n` observations of `h`, most recent first. */
  function LagsOf(h: seq<Option<real>>, n: nat): (lags: seq<real>)
    requires n <= |h| && forall j :: |h| - n <= j < |h| ==> h[j].Some?
    ensures |lags| == n && forall k :: 0 <= k < n ==> lags[k] == h[|h| - 1 - k].value
  {
    seq(n, k requires 0 <= k < n => h[|h| - 1 - k].value)
  }

  /** The feature row, if any, that row `i` adds given its commodity's history `h`. */
  lemma FeaturesNext(s: seq<MergedRow>, n: nat, i: nat, h: seq<Option<real>>)
    requires i < |s| && h == History(s, i, s[i].commodity)
    ensures Features(s, n, i + 1) == Features(s, n, i) +
              if Ready(h, n, s[i].price)
              then [FeatureRow(s[i].day, s[i].commodity, s[i].price.value, LagsOf(h, n), s[i].weather)]
              else []
  {
    AdmissionFromHistory(s, i, n);
  }

  /** Row `i` of the pass: emit its feature row if it is ready, then record
      its price in its commodity's history. */
  method Observe(s: seq<MergedRow>, n: nat, i: nat, seen: map<string, seq<Option<real>>>, out: seq<FeatureRow>)
      returns (seen': map<string, seq<Option<real>>>, out': seq<FeatureRow>)
    requires i < |s| && SeenIsHistory(seen, s, i) && out == Features(s, n, i)
    ensures SeenIsHistory(seen', s, i + 1) && out' == Features(s, n, i + 1)
  {
    var row := s[i];
    var h := if row.commodity in seen then seen[row.commodity] else [];
    FeaturesNext(s, n, i, h);
    HistoryStep(seen, s, i);
    out' := out;
    if Ready(h, n, row.price) {
      out' := out + [FeatureRow(row.day, row.commodity, row.price.value, LagsOf(h, n), row.weather)];
    }
    seen' := seen[row.commodity := h + [row.price]];
  }

  /** One pass over the date-sorted table keeping each commodity's price
      history, as `groupby("commodity")["price"].shift(k)` does. */
  method MakePriceLags(rows: seq<MergedRow>, n: nat) returns (out: seq<FeatureRow>)
    ensures out == LagFeatures(rows, n)
    ensures |out| <= |rows|
    ensures forall f :: f in out ==> |f.lags| == n
  {
    var s := Sorting.SortBy(rows, ByDay);
    var seen: map<string, seq<Option<real>>> := map[];
    out := [];
    var i := 0;
    while i < |s|
      invariant 0 <= i <= |s|
      invariant SeenIsHistory(seen, s, i)
      invariant out == Features(s, n, i)
    {
      seen, out := Observe(s, n, i, seen, out);
      i := i + 1;
    }
  }

  // ---------------------------------------------------------------------------
  // Properties of the lag columns
  // ---------------------------------------------------------------------------

  /** Between two consecutive rows of one commodity the history grows by
      exactly the earlier row's price. */
  lemma {:induction false} HistorySkipsOtherCommodities(s: seq<MergedRow>, i: nat, j: nat, c: string)
    requires i < j <= |s|
    requires forall m :: i < m < j ==> s[m].commodity != c
    ensures History(s, j, c) == History(s, i + 1, c)
    decreases j
  {
    if j > i + 1 {
      HistorySkipsOtherCommodities(s, i, j - 1, c);
    }
  }

  /** Lags count observations, not days: if row `j` is the next row of row
      `i`'s commodity in the sorted table, its `lag_1` is row `i`'s price and
      its `lag_{k+2}` is row `i`'s `lag_{k+1}`, however far apart their dates. */
  lemma ConsecutiveShift(s: seq<MergedRow>, i: nat, j: nat)
    requires i < j < |s|
    requires s[i].commodity == s[j].commodity
    requires forall m :: i < m < j ==> s[m].commodity != s[i].commodity
    ensures Lag(s, j, 0) == s[i].price
    ensures forall k: nat :: Lag(s, j, k + 1) == Lag(s, i, k)
  {
    HistorySkipsOtherCommodities(s, i, j, s[i].commodity);
  }

  /** Number of rows of commodity `c`. */
  function Occurrences(rows: seq<MergedRow>, c: string): nat {
    if rows == [] then 0
    else Occurrences(rows[..|rows| - 1], c) + (if rows[|rows| - 1].commodity == c then 1 else 0)
  }

  lemma {:induction false} OccurrencesAppend(a: seq<MergedRow>, b: seq<MergedRow>, c: string)
    ensures Occurrences(a + b, c) == Occurrences(a, c) + Occurrences(b, c)
    decreases |b|
  {
    if b != [] {
      assert (a + b)[..|a + b| - 1] == a + b[..|b| - 1];
      OccurrencesAppend(a, b[..|b| - 1], c);
    } else {
      assert a + b == a;
    }
  }

  /** Taking row `j` out of `b`. */
  lemma RemoveAt(b: seq<MergedRow>, j: nat, c: string)
    requires j < |b|
    ensures multiset(b[..j] + b[j + 1..]) == multiset(b) - multiset{b[j]}
    ensures Occurrences(b, c) == Occurrences(b[..j] + b[j + 1..], c) + (if b[j].commodity == c then 1 else 0)
  {
    var l, x, r := b[..j], b[j], b[j + 1..];
    assert b == l + [x] + r;
    assert multiset(b) == multiset(l) + multiset{x} + multiset(r);
    assert multiset(l + r) == multiset(l) + multiset(r);
    OccurrencesAppend(l, [x], c);
    OccurrencesAppend(l + [x], r, c);
    OccurrencesAppend(l, r, c);
    assert Occurrences([x], c) == (if x.commodity == c then 1 else 0) by {
      assert [x][..0] == [];
    }
  }

  /** Reordering rows does not change how many there are of each commodity. */
  lemma {:induction false} OccurrencesPermutation(a: seq<MergedRow>, b: seq<MergedRow>, c: string)
    requires multiset(a) == multiset(b)
    ensures Occurrences(a, c) == Occurrences(b, c)
    decreases |a|
  {
    if a == [] {
      assert |b| == |multiset(b)| == 0;
    } else {
      var x := a[|a| - 1];
      var a' := a[..|a| - 1];
      assert a == a' + [x];
      assert x in multiset(b);
      var j :| 0 <= j < |b| && b[j] == x;
      RemoveAt(b, j, c);
      OccurrencesPermutation(a', b[..j] + b[j + 1..], c);
    }
  }

  lemma {:induction false} HistoryLength(s: seq<MergedRow>, upto: nat, c: string)
    requires upto <= |s|
    ensures |History(s, upto, c)| == Occurrences(s[..upto], c)
  {
    if upto > 0 {
      HistoryLength(s, upto - 1, c);
      assert s[..upto][..upto - 1] == s[..upto - 1];
    }
  }

  /** The feature rows of commodity `c`, in order. */
  function OfCommodity(fs: seq<FeatureRow>, c: string): (r: seq<FeatureRow>)
    ensures forall f :: f in r ==> f in fs && f.commodity == c
  {
    if fs == [] then []
    else OfCommodity(fs[..|fs| - 1], c) + (if fs[|fs| - 1].commodity == c then [fs[|fs| - 1]] else [])
  }

  /** `b`'s `lag_1` is `a`'s price and `b`'s `lag_{k+2}` is `a`'s `lag_{k+1}`. */
  ghost predicate Shifted(a: FeatureRow, b: FeatureRow, n: nat) {
    && n >= 1 && |a.lags| == n && |b.lags| == n
    && b.lags[0] == a.price
    && forall k :: 0 <= k < n - 1 ==> b.lags[k + 1] == a.lags[k]
  }

  /** Every row shifts into the next. */
  ghost predicate ShiftChain(fs: seq<FeatureRow>, n: nat) {
    forall t :: 1 <= t < |fs| ==> Shifted(fs[t - 1], fs[t], n)
  }

  ghost predicate FullyPriced(s: seq<MergedRow>, c: string) {
    forall i :: 0 <= i < |s| && s[i].commodity == c ==> s[i].price.Some?
  }

  /** Row `f` holds the latest price of history `h` and, as lags, the `n`
      prices before it. */
  ghost predicate RowAgrees(f: FeatureRow, h: seq<Option<real>>, n: nat) {
    && |h| >= n + 1 && h[|h| - 1].Some? && f.price == h[|h| - 1].value
    && |f.lags| == n
    && forall k :: 0 <= k < n ==> h[|h| - 2 - k].Some? && f.lags[k] == h[|h| - 2 - k].value
  }

  ghost predicate LastRowAgrees(F: seq<FeatureRow>, h: seq<Option<real>>, n: nat) {
    F != [] ==> RowAgrees(F[|F| - 1], h, n)
  }

  /** What holds of a fully priced commodity's feature rows `F` given its
      history `h`: their count, their shift chain, and the last row's
      relation to the history. */
  ghost predicate ChainFacts(F: seq<FeatureRow>, h: seq<Option<real>>, n: nat) {
    && (forall j :: 0 <= j < |h| ==> h[j].Some?)
    && |F| == (if |h| > n then |h| - n else 0)
    && ShiftChain(F, n)
    && LastRowAgrees(F, h, n)
  }

  /** Appending the row admitted on top of history `h` keeps the facts. */
  lemma AppendAdmitted(F: seq<FeatureRow>, h: seq<Option<real>>, f: FeatureRow, p: real, n: nat)
    requires n >= 1 && n <= |h|
    requires ChainFacts(F, h, n)
    requires f.price == p && |f.lags| == n
    requires forall k :: 0 <= k < n ==> f.lags[k] == h[|h| - 1 - k].value
    ensures ChainFacts(F + [f], h + [Some(p)], n)
  {
    var F' := F + [f];
    forall t | 1 <= t < |F'|
      ensures Shifted(F'[t - 1], F'[t], n)
    {
      if t < |F| {
        assert F'[t - 1] == F[t - 1] && F'[t] == F[t];
      } else {
        assert F'[t - 1] == F[|F| - 1] && F'[t] == f;
      }
    }
    var h' := h + [Some(p)];
    assert forall j :: 0 <= j < |h| ==> h'[j] == h[j];
  }

  /** An observation too early to be admitted keeps the facts. */
  lemma AppendUnadmitted(F: seq<FeatureRow>, h: seq<Option<real>>, p: real, n: nat)
    requires |h| < n
    requires ChainFacts(F, h, n)
    ensures ChainFacts(F, h + [Some(p)], n)
  {
    var h' := h + [Some(p)];
    assert forall j :: 0 <= j < |h| ==> h'[j] == h[j];
  }

  /** The facts over the first `upto` rows of the sorted table. */
  ghost predicate PrefixInvariant(s: seq<MergedRow>, n: nat, c: string, upto: nat)
    requires upto <= |s|
  {
    ChainFacts(OfCommodity(Features(s, n, upto), c), History(s, upto, c), n)
  }

  lemma OfCommodityAppend(fs: seq<FeatureRow>, more: seq<FeatureRow>, c: string)
    requires |more| <= 1
    ensures OfCommodity(fs + more, c) ==
              OfCommodity(fs, c) + (if more != [] && more[0].commodity == c then more else [])
  {
    if more != [] {
      assert (fs + more)[..|fs + more| - 1] == fs;
    } else {
      assert fs + more == fs;
    }
  }

  lemma FeaturesStepOther(s: seq<MergedRow>, n: nat, c: string, i: nat)
    requires i < |s| && s[i].commodity != c
    ensures OfCommodity(Features(s, n, i + 1), c) == OfCommodity(Features(s, n, i), c)
  {
    var fs := Features(s, n, i + 1);
    if Admitted(s, i, n) {
      assert fs == Features(s, n, i) + [FeatureAt(s, i, n)];
      OfCommodityAppend(Features(s, n, i), [FeatureAt(s, i, n)], c);
    } else {
      assert fs == Features(s, n, i);
    }
  }

  lemma HistoryOther(s: seq<MergedRow>, i: nat, c: string)
    requires i < |s| && s[i].commodity != c
    ensures History(s, i + 1, c) == History(s, i, c)
  {
    assert History(s, i, c) + [] == History(s, i, c);
  }

  lemma PrefixStepOther(s: seq<MergedRow>, n: nat, c: string, i: nat)
    requires n >= 1 && i < |s| && s[i].commodity != c
    requires PrefixInvariant(s, n, c, i)
    ensures PrefixInvariant(s, n, c, i + 1)
  {
    FeaturesStepOther(s, n, c, i);
    HistoryOther(s, i, c);
  }

  lemma PrefixStepShort(s: seq<MergedRow>, n: nat, c: string, i: nat)
    requires n >= 1 && i < |s| && s[i].commodity == c && |History(s, i, c)| < n
    requires s[i].price.Some?
    requires PrefixInvariant(s, n, c, i)
    ensures PrefixInvariant(s, n, c, i + 1)
  {
    var h := History(s, i, c);
    FeaturesNext(s, n, i, h);
    assert Features(s, n, i + 1) == Features(s, n, i);
    assert History(s, i + 1, c) == h + [s[i].price];
    AppendUnadmitted(OfCommodity(Features(s, n, i), c), h, s[i].price.value, n);
  }

  lemma PrefixStepAdmit(s: seq<MergedRow>, n: nat, c: string, i: nat)
    requires n >= 1 && i < |s| && s[i].commodity == c && |History(s, i, c)| >= n
    requires s[i].price.Some?
    requires PrefixInvariant(s, n, c, i)
    ensures PrefixInvariant(s, n, c, i + 1)
  {
    var h := History(s, i, c);
    var F := OfCommodity(Features(s, n, i), c);
    assert Ready(h, n, s[i].price);
    FeaturesNext(s, n, i, h);
    var f := FeatureRow(s[i].day, c, s[i].price.value, LagsOf(h, n), s[i].weather);
    OfCommodityAppend(Features(s, n, i), [f], c);
    assert History(s, i + 1, c) == h + [s[i].price];
    AppendAdmitted(F, h, f, s[i].price.value, n);
  }

  lemma {:induction false} FullyPricedPrefix(s: seq<MergedRow>, n: nat, c: string, upto: nat)
    requires n >= 1 && upto <= |s|
    requires FullyPriced(s, c)
    ensures PrefixInvariant(s, n, c, upto)
  {
    if upto > 0 {
      var i := upto - 1;
      FullyPricedPrefix(s, n, c, i);
      if s[i].commodity != c {
        PrefixStepOther(s, n, c, i);
      } else if |History(s, i, c)| < n {
        PrefixStepShort(s, n, c, i);
      } else {
        PrefixStepAdmit(s, n, c, i);
      }
    }
  }

  /** A commodity whose rows all carry a price and that occurs `m` times
      contributes `max(m - n, 0)` feature rows. */
  lemma RowsPerCommodity(rows: seq<MergedRow>, n: nat, c: string)
    requires n >= 1
    requires forall r :: r in rows && r.commodity == c ==> r.price.Some?
    ensures var m := Occurrences(rows, c);
            |OfCommodity(LagFeatures(rows, n), c)| == (if m > n then m - n else 0)
  {
    var s := Sorting.SortBy(rows, ByDay);
    forall i | 0 <= i < |s| && s[i].commodity == c
      ensures s[i].price.Some?
    {
      assert s[i] in multiset(rows);
    }
    FullyPricedPrefix(s, n, c, |s|);
    HistoryLength(s, |s|, c);
    assert s[..|s|] == s;
    OccurrencesPermutation(s, rows, c);
  }

  /** For a commodity whose rows all carry a price, consecutive feature rows
      of that commodity shift into each other: the later row's `lag_1` is the
      earlier row's price and its `lag_{k+2}` the earlier row's `lag_{k+1}`. */
  lemma ConsecutiveRowsShift(rows: seq<MergedRow>, n: nat, c: string)
    requires n >= 1
    requires forall r :: r in rows && r.commodity == c ==> r.price.Some?
    ensures ShiftChain(OfCommodity(LagFeatures(rows, n), c), n)
  {
    var s := Sorting.SortBy(rows, ByDay);
    forall i | 0 <= i < |s| && s[i].commodity == c
      ensures s[i].price.Some?
    {
      assert s[i] in multiset(rows);
    }
    FullyPricedPrefix(s, n, c, |s|);
  }
}
