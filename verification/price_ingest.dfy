/** Normalisation of a market-price CSV with unknown header spellings into the
    canonical {date, commodity, price} table (`fetch_prices_csv`). */
module PriceIngest {
  import opened Wrappers
  import opened Tables
  import Sorting

  /** A raw CSV cell; an empty field reads as `Blank` (pandas NaN). */
  datatype Cell = Blank | Text(text: string)

  /** A raw table: its header row and, per data row, the cell under each
      header (a header absent from a row's map reads as `Blank`). */
  datatype RawTable = RawTable(headers: seq<string>, rows: seq<map<string, Cell>>)

  /** The cell-level coercions `pd.to_datetime(errors='coerce')` and
      `pd.to_numeric(errors='coerce')`; `None` is NaT / NaN. */
  datatype Parsers = Parsers(date: string -> Option<Stamp>, number: string -> Option<real>)

  datatype IngestError =
    | NoPriceColumn         // the ValueError raised when no price header is found
    | DuplicatePriceColumn  // the TypeError of `pd.to_numeric` on two columns both named `price`

  const DateHeaders: seq<string> := ["date", "Date", "Price Date", "PRICE DATE"]
  const PriceHeaders: seq<string> := ["Modal_Price", "Price", "Max_Price", "Min_Price"]
  const CommodityHeaders: seq<string> := ["Commodity", "Crop", "Product"]
  const UnknownCommodity: string := "Unknown"

  /** Index of the first candidate that is a header, probing in priority order. */
  function FirstPresent(candidates: seq<string>, headers: seq<string>): (r: Option<nat>)
    ensures r.Some? ==> r.value < |candidates| && candidates[r.value] in headers
    ensures r.Some? ==> forall j :: 0 <= j < r.value ==> candidates[j] !in headers
    ensures r.None? ==> forall j :: 0 <= j < |candidates| ==> candidates[j] !in headers
    decreases |candidates|
  {
    if candidates == [] then None
    else if candidates[0] in headers then Some(0)
    else
      match FirstPresent(candidates[1..], headers)
      case None => None
      case Some(i) => Some(i + 1)
  }

  /** The header a rename picks: the first present candidate. */
  function Resolve(candidates: seq<string>, headers: seq<string>): (r: Option<string>)
    ensures r.Some? <==> exists c :: c in candidates && c in headers
    ensures r.Some? ==> r.value in candidates && r.value in headers
    ensures r.Some? ==> exists i :: 0 <= i < |candidates| && candidates[i] == r.value
                          && forall j :: 0 <= j < i ==> candidates[j] !in headers
  {
    match FirstPresent(candidates, headers)
    case None => None
    case Some(i) => Some(candidates[i])
  }

  /** Which raw column supplies each canonical column. `date == None` is the
      degraded mode with synthesised dates; `commodity == None` is the
      "Unknown" fallback. `lowercaseCommodity` records that a `commodity`
      header survives beside the renamed one, so both must be non-blank. */
  datatype ColumnPlan = ColumnPlan(
    date: Option<string>,
    price: string,
    commodity: Option<string>,
    lowercaseCommodity: bool)

  function PlanColumns(headers: seq<string>): (r: Result<ColumnPlan, IngestError>)
    ensures r == Failure(NoPriceColumn) <==> forall c :: c in PriceHeaders ==> c !in headers
    ensures r == Failure(DuplicatePriceColumn) <==>
              (exists c :: c in PriceHeaders && c in headers) && "price" in headers
    ensures r.Success? ==> r.value.price in PriceHeaders && r.value.price in headers
    ensures r.Success? ==> (r.value.date.None? <==> forall c :: c in DateHeaders ==> c !in headers)
    ensures r.Success? ==> (r.value.commodity.None? <==> forall c :: c in CommodityHeaders ==> c !in headers)
    ensures r.Success? ==> Some(r.value.price) == Resolve(PriceHeaders, headers)
                           && r.value.date == Resolve(DateHeaders, headers)
                           && r.value.commodity == Resolve(CommodityHeaders, headers)
    ensures r.Success? ==> (r.value.lowercaseCommodity <==> r.value.commodity.Some? && "commodity" in headers)
  {
    match Resolve(PriceHeaders, headers)
    case None => Failure(NoPriceColumn)
    case Some(price) =>
      if "price" in headers then Failure(DuplicatePriceColumn)
      else
        var commodity := Resolve(CommodityHeaders, headers);
        Success(ColumnPlan(Resolve(DateHeaders, headers), price, commodity,
                           commodity.Some? && "commodity" in headers))
  }

  /** `Modal_Price` wins over every other price spelling, `date` over every
      other date spelling, and `Commodity` over `Crop` and `Product`. */
  lemma FirstSpellingWins(headers: seq<string>)
    requires "Modal_Price" in headers && "price" !in headers
    requires "date" in headers && "Commodity" in headers
    ensures PlanColumns(headers).Success?
    ensures PlanColumns(headers).value.price == "Modal_Price"
    ensures PlanColumns(headers).value.date == Some("date")
    ensures PlanColumns(headers).value.commodity == Some("Commodity")
  {
    assert PriceHeaders[0] == "Modal_Price" && DateHeaders[0] == "date" && CommodityHeaders[0] == "Commodity";
  }

  function CellAt(row: map<string, Cell>, h: string): Cell {
    if h in row then row[h] else Blank
  }

  /** The date `pd.date_range(end=today, periods=n)` gives row `i`. */
  function SyntheticStamp(now: Stamp, n: nat, i: nat): Stamp {
    now - (n - 1 - i) * SecondsPerDay
  }

  /** The canonical record of row `i`, or `None` when the row is dropped. */
  function CleanRow(t: RawTable, plan: ColumnPlan, now: Stamp, p: Parsers, i: nat): Option<PriceRow>
    requires i < |t.rows|
  {
    var row := t.rows[i];
    var date :=
      match plan.date
      case None => Some(SyntheticStamp(now, |t.rows|, i))
      case Some(h) => (match CellAt(row, h) case Blank => None case Text(s) => p.date(s));
    var commodity :=
      match plan.commodity
      case None => Some(UnknownCommodity)
      case Some(h) => (match CellAt(row, h) case Blank => None case Text(s) => Some(s));
    var secondCommodityOk := !plan.lowercaseCommodity || CellAt(row, "commodity").Text?;
    var price := match CellAt(row, plan.price) case Blank => None case Text(s) => p.number(s);
    if date.Some? && commodity.Some? && secondCommodityOk && price.Some? then
      Some(PriceRow(date.value, commodity.value, price))
    else
      None
  }

  /** The cleaned record, or `None`, of every row. */
  function Outcomes(t: RawTable, plan: ColumnPlan, now: Stamp, p: Parsers): (cs: seq<Option<PriceRow>>)
    ensures |cs| == |t.rows|
    ensures forall i :: 0 <= i < |t.rows| ==> cs[i] == CleanRow(t, plan, now, p, i)
  {
    seq(|t.rows|, i requires 0 <= i < |t.rows| => CleanRow(t, plan, now, p, i))
  }

  /** The records among the first `n` outcomes, in order: `dropna`. */
  function Kept(cs: seq<Option<PriceRow>>, n: nat): (r: seq<PriceRow>)
    requires n <= |cs|
    ensures |r| <= n
    ensures forall x :: x in r ==> exists i :: 0 <= i < n && cs[i] == Some(x)
    ensures forall i :: 0 <= i < n && cs[i].Some? ==> cs[i].value in r
  {
    if n == 0 then []
    else
      match cs[n - 1]
      case None => Kept(cs, n - 1)
      case Some(x) => Kept(cs, n - 1) + [x]
  }

  /** `idx` lists, in increasing order, the positions below `n` whose outcome
      is a record, and `r[k]` is the record at position `idx[k]`. */
  ghost predicate Picks(cs: seq<Option<PriceRow>>, n: nat, r: seq<PriceRow>, idx: seq<nat>)
    requires n <= |cs|
  {
    && |idx| == |r|
    && (forall k :: 0 <= k < |idx| ==> idx[k] < n && cs[idx[k]] == Some(r[k]))
    && (forall k, l :: 0 <= k < l < |idx| ==> idx[k] < idx[l])
    && (forall i :: 0 <= i < n && cs[i].Some? ==> i in idx)
  }

  lemma PicksExtend(cs: seq<Option<PriceRow>>, n: nat, r: seq<PriceRow>, idx: seq<nat>)
    requires 0 < n <= |cs| && Picks(cs, n - 1, r, idx)
    ensures cs[n - 1].None? ==> Picks(cs, n, r, idx)
    ensures cs[n - 1].Some? ==> Picks(cs, n, r + [cs[n - 1].value], idx + [n - 1])
  {
    if cs[n - 1].None? {
      forall i | 0 <= i < n && cs[i].Some?
        ensures i in idx
      {
        assert i < n - 1;
      }
    } else {
      var r', idx' := r + [cs[n - 1].value], idx + [n - 1];
      forall k | 0 <= k < |idx'|
        ensures idx'[k] < n && cs[idx'[k]] == Some(r'[k])
      {
        if k < |idx| {
          assert idx'[k] == idx[k] && r'[k] == r[k];
        }
      }
      forall i | 0 <= i < n && cs[i].Some?
        ensures i in idx'
      {
        if i < n - 1 {
          assert i in idx;
        } else {
          assert idx'[|idx|] == i;
        }
      }
    }
  }

  /** The positions below `n` holding a record, in increasing order. */
  ghost function Positions(cs: seq<Option<PriceRow>>, n: nat): seq<nat>
    requires n <= |cs|
  {
    if n == 0 then []
    else if cs[n - 1].Some? then Positions(cs, n - 1) + [n - 1]
    else Positions(cs, n - 1)
  }

  /** Keeping the records is an order-preserving filter: the increasing
      positions holding a record pick exactly what is kept. */
  lemma {:induction false} KeptPicks(cs: seq<Option<PriceRow>>, n: nat)
    requires n <= |cs|
    ensures Picks(cs, n, Kept(cs, n), Positions(cs, n))
    decreases n
  {
    if n > 0 {
      KeptPicks(cs, n - 1);
      PicksExtend(cs, n, Kept(cs, n - 1), Positions(cs, n - 1));
    }
  }

  /** The surviving records of the first `n` rows, in row order. */
  function CleanRows(t: RawTable, plan: ColumnPlan, now: Stamp, p: Parsers, n: nat): (r: seq<PriceRow>)
    requires n <= |t.rows|
    ensures |r| <= n
    ensures forall x :: x in r ==> exists i :: 0 <= i < n && CleanRow(t, plan, now, p, i) == Some(x)
    ensures forall i :: 0 <= i < n && CleanRow(t, plan, now, p, i).Some? ==>
              CleanRow(t, plan, now, p, i).value in r
    ensures forall x :: x in r ==> x.price.Some?
    ensures plan.commodity.None? ==> forall x :: x in r ==> x.commodity == UnknownCommodity
  {
    Kept(Outcomes(t, plan, now, p), n)
  }

  /** Cleaning is an order-preserving filter: an increasing list of row
      positions picks exactly the rows that clean successfully, so no row is
      repeated, merged or reordered. */
  lemma CleanRowsFilter(t: RawTable, plan: ColumnPlan, now: Stamp, p: Parsers, n: nat)
    requires n <= |t.rows|
    ensures exists idx: seq<nat> :: Picks(Outcomes(t, plan, now, p), n, CleanRows(t, plan, now, p, n), idx)
  {
    var cs := Outcomes(t, plan, now, p);
    KeptPicks(cs, n);
    assert CleanRows(t, plan, now, p, n) == Kept(cs, n);
    assert Picks(cs, n, CleanRows(t, plan, now, p, n), Positions(cs, n));
  }

  function ByStamp(r: PriceRow): int {
    r.at
  }

  /** `fetch_prices_csv` after the CSV has been read. */
  function Ingest(t: RawTable, now: Stamp, p: Parsers): (r: Result<seq<PriceRow>, IngestError>)
    ensures r == Failure(NoPriceColumn) <==> forall c :: c in PriceHeaders ==> c !in t.headers
    ensures r == Failure(DuplicatePriceColumn) <==>
              (exists c :: c in PriceHeaders && c in t.headers) && "price" in t.headers
    ensures r.Success? ==> |r.value| <= |t.rows|
    ensures r.Success? ==> multiset(r.value) == multiset(CleanRows(t, PlanColumns(t.headers).value, now, p, |t.rows|))
    ensures r.Success? ==> Sorting.SortedBy(r.value, ByStamp)
    ensures r.Success? ==> forall x :: x in r.value ==> x.price.Some?
    ensures r.Success? && (forall c :: c in CommodityHeaders ==> c !in t.headers) ==>
              forall x :: x in r.value ==> x.commodity == UnknownCommodity
    ensures r.Success? ==> forall x :: x in r.value ==>
              exists i :: 0 <= i < |t.rows| && CleanRow(t, PlanColumns(t.headers).value, now, p, i) == Some(x)
    ensures r.Success? ==> forall i :: 0 <= i < |t.rows| && CleanRow(t, PlanColumns(t.headers).value, now, p, i).Some? ==>
              CleanRow(t, PlanColumns(t.headers).value, now, p, i).value in r.value
  {
    match PlanColumns(t.headers)
    case Failure(e) => Failure(e)
    case Success(plan) =>
      var kept := CleanRows(t, plan, now, p, |t.rows|);
      var sorted := Sorting.SortBy(kept, ByStamp);
      assert forall x :: x in sorted ==> x in kept by {
        forall x | x in sorted
          ensures x in kept
        {
          assert x in multiset(sorted);
        }
      }
      assert forall x :: x in kept ==> x in sorted by {
        forall x | x in kept
          ensures x in sorted
        {
          assert x in multiset(kept);
        }
      }
      Success(sorted)
  }

  /** With no date header, every row that survives gets one consecutive daily
      stamp, the last row's being `now`: when all rows survive, the output is
      exactly one stamp per row, a day apart, ending today. */
  lemma {:induction false} SyntheticDatesEndToday(t: RawTable, now: Stamp, p: Parsers)
    requires PlanColumns(t.headers).Success? && PlanColumns(t.headers).value.date.None?
    requires forall i :: 0 <= i < |t.rows| ==> CleanRow(t, PlanColumns(t.headers).value, now, p, i).Some?
    ensures Ingest(t, now, p).Success?
    ensures |Ingest(t, now, p).value| == |t.rows|
    ensures forall k :: 0 <= k < |t.rows| ==>
              Ingest(t, now, p).value[k].at == now - (|t.rows| - 1 - k) * SecondsPerDay
  {
    var plan := PlanColumns(t.headers).value;
    var kept := CleanRows(t, plan, now, p, |t.rows|);
    AllRowsKept(t, plan, now, p, |t.rows|);
    assert Sorting.SortedBy(kept, ByStamp);
    Sorting.SortBySortedIsIdentity(kept, ByStamp);
  }

  /** When every outcome is a record, all are kept, in order. */
  lemma {:induction false} KeptAll(cs: seq<Option<PriceRow>>, n: nat)
    requires n <= |cs| && forall i :: 0 <= i < n ==> cs[i].Some?
    ensures |Kept(cs, n)| == n && forall k :: 0 <= k < n ==> cs[k] == Some(Kept(cs, n)[k])
    decreases n
  {
    if n > 0 {
      KeptAll(cs, n - 1);
      var before := Kept(cs, n - 1);
      var r := Kept(cs, n);
      assert r == before + [cs[n - 1].value];
      forall k | 0 <= k < n
        ensures cs[k] == Some(r[k])
      {
        if k < n - 1 {
          assert r[k] == before[k];
        }
      }
    }
  }

  lemma AllRowsKept(t: RawTable, plan: ColumnPlan, now: Stamp, p: Parsers, n: nat)
    requires n <= |t.rows| && plan.date.None?
    requires forall i :: 0 <= i < |t.rows| ==> CleanRow(t, plan, now, p, i).Some?
    ensures |CleanRows(t, plan, now, p, n)| == n
    ensures forall k :: 0 <= k < n ==> CleanRows(t, plan, now, p, n)[k].at == SyntheticStamp(now, |t.rows|, k)
  {
    var cs := Outcomes(t, plan, now, p);
    KeptAll(cs, n);
    var r := CleanRows(t, plan, now, p, n);
    assert r == Kept(cs, n);
    forall k | 0 <= k < n
      ensures r[k].at == SyntheticStamp(now, |t.rows|, k)
    {
      assert CleanRow(t, plan, now, p, k) == Some(r[k]);
    }
  }
}
