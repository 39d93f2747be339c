/** The supply-chain report (`analyze_supply_chain`): the warehouse table and
    the demand table are outer-joined on region with missing values filled
    with zero, each joined row gets its deficit and a surplus/deficit status,
    and the statuses are counted. */
module SupplyAnalytics {
  import Strings

  /** A row of the supply table; only the join key and the capacity matter. */
  datatype SupplyRow = SupplyRow(region: string, capacity: int)

  /** A row of the demand table. */
  datatype DemandRow = DemandRow(region: string, demand: int)

  /** A row of the joined, classified table. */
  datatype Analysed = Analysed(region: string, capacity: int, demand: int, deficit: int, status: string)

  const SurplusLabel: string := "surplus"
  const DeficitLabel: string := "deficit"

  /** The columns the report adds to one joined pair of values. */
  function Classify(region: string, capacity: int, demand: int): (row: Analysed)
    ensures row.region == region && row.capacity == capacity && row.demand == demand
    ensures row.deficit == demand - capacity
    ensures row.status == SurplusLabel <==> demand < capacity
    ensures row.status == SurplusLabel || row.status == DeficitLabel
  {
    var deficit := demand - capacity;
    Analysed(region, capacity, demand, deficit, if deficit < 0 then SurplusLabel else DeficitLabel)
  }

  // ---------------------------------------------------------------------------
  // The join keys
  // ---------------------------------------------------------------------------

  predicate StrictlySorted(ks: seq<string>) {
    forall i, j :: 0 <= i < j < |ks| ==> Strings.Less(ks[i], ks[j])
  }

  /** Adds `k` to a strictly sorted list of keys, unless it is there already. */
  function InsertKey(k: string, ks: seq<string>): (r: seq<string>)
    requires StrictlySorted(ks)
    ensures StrictlySorted(r)
    ensures forall x :: x in r <==> x == k || x in ks
    decreases |ks|
  {
    if ks == [] then [k]
    else if k == ks[0] then ks
    else if Strings.Less(k, ks[0]) then
      forall j | 0 < j < |ks|
        ensures Strings.Less(k, ks[j])
      {
        Strings.LessTransitive(k, ks[0], ks[j]);
      }
      [k] + ks
    else
      Strings.LessTotal(k, ks[0]);
      var rest := InsertKey(k, ks[1..]);
      forall x | x in rest
        ensures Strings.Less(ks[0], x)
      {
        if x != k {
          var j :| 0 <= j < |ks[1..]| && ks[1..][j] == x;
          assert ks[j + 1] == x;
        }
      }
      [ks[0]] + rest
  }

  /** The distinct values of `xs`, in ascending order. */
  function SortedKeys(xs: seq<string>): (r: seq<string>)
    ensures StrictlySorted(r)
    ensures forall x :: x in r <==> x in xs
    decreases |xs|
  {
    if xs == [] then [] else InsertKey(xs[0], SortedKeys(xs[1..]))
  }

  /** The region column of the supply table followed by that of the demand
      table: the key column of the concatenated frames. */
  function AllRegions(sup: seq<SupplyRow>, dem: seq<DemandRow>): (r: seq<string>)
    ensures |r| == |sup| + |dem|
    ensures forall i :: 0 <= i < |sup| ==> r[i] == sup[i].region
    ensures forall i :: 0 <= i < |dem| ==> r[|sup| + i] == dem[i].region
  {
    seq(|sup| + |dem|, i requires 0 <= i < |sup| + |dem| => if i < |sup| then sup[i].region else dem[i - |sup|].region)
  }

  predicate InSupply(sup: seq<SupplyRow>, r: string) {
    exists s :: s in sup && s.region == r
  }

  predicate InDemand(dem: seq<DemandRow>, r: string) {
    exists d :: d in dem && d.region == r
  }

  /** The keys of an outer join: every region of either table, once each, in
      ascending order. */
  function JoinKeys(sup: seq<SupplyRow>, dem: seq<DemandRow>): (ks: seq<string>)
    ensures StrictlySorted(ks)
    ensures forall r :: r in ks <==> InSupply(sup, r) || InDemand(dem, r)
  {
    var ks := SortedKeys(AllRegions(sup, dem));
    forall r | InSupply(sup, r)
      ensures r in ks
    {
      var s :| s in sup && s.region == r;
      var i :| 0 <= i < |sup| && sup[i] == s;
      assert (AllRegions(sup, dem))[i] == r;
    }
    forall r | InDemand(dem, r)
      ensures r in ks
    {
      var d :| d in dem && d.region == r;
      var i :| 0 <= i < |dem| && dem[i] == d;
      assert (AllRegions(sup, dem))[|sup| + i] == r;
    }
    forall r | r in ks
      ensures InSupply(sup, r) || InDemand(dem, r)
    {
      var i :| 0 <= i < |AllRegions(sup, dem)| && (AllRegions(sup, dem))[i] == r;
      if i < |sup| {
        assert sup[i] in sup;
      } else {
        assert dem[i - |sup|] in dem;
      }
    }
    ks
  }

  // ---------------------------------------------------------------------------
  // One region's rows
  // ---------------------------------------------------------------------------

  /** The capacities of the supply rows of region `r`, in table order. */
  function CapacitiesAt(sup: seq<SupplyRow>, r: string): (cs: seq<int>)
    ensures |cs| <= |sup|
    ensures cs == [] <==> !InSupply(sup, r)
    ensures forall c :: c in cs ==> exists s :: s in sup && s.region == r && s.capacity == c
    decreases |sup|
  {
    if sup == [] then []
    else
      var rest := CapacitiesAt(sup[1..], r);
      assert forall s :: s in sup[1..] ==> s in sup;
      assert InSupply(sup, r) <==> sup[0].region == r || InSupply(sup[1..], r) by {
        if InSupply(sup, r) && sup[0].region != r {
          var s :| s in sup && s.region == r;
          var i :| 0 <= i < |sup| && sup[i] == s;
          assert sup[1..][i - 1] == s;
        }
      }
      if sup[0].region == r then [sup[0].capacity] + rest else rest
  }

  /** The demands of the demand rows of region `r`, in table order. */
  function DemandsAt(dem: seq<DemandRow>, r: string): (ds: seq<int>)
    ensures |ds| <= |dem|
    ensures ds == [] <==> !InDemand(dem, r)
    ensures forall v :: v in ds ==> exists d :: d in dem && d.region == r && d.demand == v
    decreases |dem|
  {
    if dem == [] then []
    else
      var rest := DemandsAt(dem[1..], r);
      assert forall d :: d in dem[1..] ==> d in dem;
      assert InDemand(dem, r) <==> dem[0].region == r || InDemand(dem[1..], r) by {
        if InDemand(dem, r) && dem[0].region != r {
          var d :| d in dem && d.region == r;
          var i :| 0 <= i < |dem| && dem[i] == d;
          assert dem[1..][i - 1] == d;
        }
      }
      if dem[0].region == r then [dem[0].demand] + rest else rest
  }

  /** The capacities of a region over a split table are those of each part. */
  lemma {:induction false} CapacitiesAtAppend(a: seq<SupplyRow>, b: seq<SupplyRow>, r: string)
    ensures CapacitiesAt(a + b, r) == CapacitiesAt(a, r) + CapacitiesAt(b, r)
    decreases |a|
  {
    if a == [] {
      assert a + b == b;
    } else {
      assert (a + b)[0] == a[0] && (a + b)[1..] == a[1..] + b;
      CapacitiesAtAppend(a[1..], b, r);
    }
  }

  /** The demands of a region over a split table are those of each part. */
  lemma {:induction false} DemandsAtAppend(a: seq<DemandRow>, b: seq<DemandRow>, r: string)
    ensures DemandsAt(a + b, r) == DemandsAt(a, r) + DemandsAt(b, r)
    decreases |a|
  {
    if a == [] {
      assert a + b == b;
    } else {
      assert (a + b)[0] == a[0] && (a + b)[1..] == a[1..] + b;
      DemandsAtAppend(a[1..], b, r);
    }
  }

  /** `fillna(0)`: a side with no row for the region contributes one zero. */
  function Filled(xs: seq<int>): (r: seq<int>)
    ensures r != [] && forall x :: x in r ==> x in xs || (xs == [] && x == 0)
  {
    if xs == [] then [0] else xs
  }

  /** The joined rows of one key: every supply value paired with every demand
      value, supply-major. */
  function Product(k: string, cs: seq<int>, ds: seq<int>): (rows: seq<Analysed>)
    ensures |rows| == |cs| * |ds|
    ensures forall row :: row in rows ==>
              row.region == k && row.capacity in cs && row.demand in ds && row == Classify(k, row.capacity, row.demand)
    ensures forall c, d :: c in cs && d in ds ==> Classify(k, c, d) in rows
    decreases |cs|
  {
    if cs == [] then []
    else
      var first := seq(|ds|, j requires 0 <= j < |ds| => Classify(k, cs[0], ds[j]));
      var rest := Product(k, cs[1..], ds);
      assert |first + rest| == |cs| * |ds| by {
        assert |cs| * |ds| == |ds| + (|cs| - 1) * |ds|;
      }
      forall c, d | c in cs && d in ds
        ensures Classify(k, c, d) in first + rest
      {
        var j :| 0 <= j < |ds| && ds[j] == d;
        if c == cs[0] {
          assert first[j] == Classify(k, c, d);
        } else {
          assert c in cs[1..];
        }
      }
      first + rest
  }

  /** Where the rows of the `i`-th supply value begin in a block with `n`
      demand values. */
  function Offset(i: nat, n: nat): nat {
    if i == 0 then 0 else n + Offset(i - 1, n)
  }

  lemma {:induction false} OffsetIsProduct(i: nat, n: nat)
    ensures Offset(i, n) == i * n
    decreases i
  {
    if i > 0 {
      OffsetIsProduct(i - 1, n);
      MulStep(i, n);
    }
  }

  lemma MulStep(i: nat, n: nat)
    requires i > 0
    ensures i * n == n + (i - 1) * n
  {
  }

  lemma {:induction false} ProductAtOffset(k: string, cs: seq<int>, ds: seq<int>, i: nat, j: nat)
    requires i < |cs| && j < |ds|
    ensures Offset(i, |ds|) + j < |Product(k, cs, ds)|
    ensures Product(k, cs, ds)[Offset(i, |ds|) + j] == Classify(k, cs[i], ds[j])
    decreases i
  {
    var n := |ds|;
    var first := seq(n, j requires 0 <= j < n => Classify(k, cs[0], ds[j]));
    var rest := Product(k, cs[1..], ds);
    assert Product(k, cs, ds) == first + rest;
    if i > 0 {
      ProductAtOffset(k, cs[1..], ds, i - 1, j);
      assert cs[1..][i - 1] == cs[i];
    }
  }

  /** Row `i * |ds| + j` of a key's block pairs the `i`-th supply value with
      the `j`-th demand value, so every pair of table rows gives exactly one
      joined row. */
  lemma ProductAt(k: string, cs: seq<int>, ds: seq<int>, i: nat, j: nat)
    requires i < |cs| && j < |ds|
    ensures i * |ds| + j < |Product(k, cs, ds)|
    ensures Product(k, cs, ds)[i * |ds| + j] == Classify(k, cs[i], ds[j])
  {
    ProductAtOffset(k, cs, ds, i, j);
    OffsetIsProduct(i, |ds|);
  }

  function Block(k: string, sup: seq<SupplyRow>, dem: seq<DemandRow>): seq<Analysed> {
    Product(k, Filled(CapacitiesAt(sup, k)), Filled(DemandsAt(dem, k)))
  }

  /** The joined rows of the keys `ks`, key by key. */
  function Blocks(ks: seq<string>, sup: seq<SupplyRow>, dem: seq<DemandRow>): (rows: seq<Analysed>)
    ensures forall row :: row in rows ==> row.region in ks
    decreases |ks|
  {
    if ks == [] then [] else Block(ks[0], sup, dem) + Blocks(ks[1..], sup, dem)
  }

  /** Every row of the joined keys comes from its own region's block, and no
      key's block is empty. */
  lemma {:induction false} BlocksFromBlock(ks: seq<string>, sup: seq<SupplyRow>, dem: seq<DemandRow>)
    ensures forall row :: row in Blocks(ks, sup, dem) ==> row in Block(row.region, sup, dem)
    ensures forall k :: k in ks ==> Block(k, sup, dem) != []
    decreases |ks|
  {
    if ks != [] {
      var k := ks[0];
      var cs := Filled(CapacitiesAt(sup, k));
      var ds := Filled(DemandsAt(dem, k));
      assert Classify(k, cs[0], ds[0]) in Block(k, sup, dem);
      BlocksFromBlock(ks[1..], sup, dem);
    }
  }

  // ---------------------------------------------------------------------------
  // The report
  // ---------------------------------------------------------------------------

  /** A joined value that is either some row's value for the region, or the
      zero filled in because the table has no row for it. */
  predicate CapacityFromSupply(sup: seq<SupplyRow>, row: Analysed) {
    (exists s :: s in sup && s.region == row.region && s.capacity == row.capacity)
    || (!InSupply(sup, row.region) && row.capacity == 0)
  }

  predicate DemandFromDemand(dem: seq<DemandRow>, row: Analysed) {
    (exists d :: d in dem && d.region == row.region && d.demand == row.demand)
    || (!InDemand(dem, row.region) && row.demand == 0)
  }

  /** `pd.merge(supply, demand, on="region", how="outer").fillna(0)` with the
      `deficit` and `status` columns added. */
  function Analyse(sup: seq<SupplyRow>, dem: seq<DemandRow>): (merged: seq<Analysed>)
    ensures forall r :: (exists row :: row in merged && row.region == r) <==> InSupply(sup, r) || InDemand(dem, r)
    ensures forall row :: row in merged ==>
              CapacityFromSupply(sup, row) && DemandFromDemand(dem, row)
              && row.deficit == row.demand - row.capacity
              && (row.status == SurplusLabel <==> row.deficit < 0)
              && (row.status == SurplusLabel || row.status == DeficitLabel)
  {
    var ks := JoinKeys(sup, dem);
    var merged := Blocks(ks, sup, dem);
    BlocksFromBlock(ks, sup, dem);
    forall r | InSupply(sup, r) || InDemand(dem, r)
      ensures exists row :: row in merged && row.region == r
    {
      var row := Block(r, sup, dem)[0];
      BlocksContainBlock(ks, sup, dem, r);
    }
    merged
  }

  lemma {:induction false} BlocksContainBlock(ks: seq<string>, sup: seq<SupplyRow>, dem: seq<DemandRow>, k: string)
    requires k in ks
    ensures Block(k, sup, dem) != [] && Block(k, sup, dem)[0] in Blocks(ks, sup, dem)
    decreases |ks|
  {
    BlocksFromBlock(ks, sup, dem);
    if ks[0] != k {
      BlocksContainBlock(ks[1..], sup, dem, k);
    }
  }

  /** The rows of region `r`, in order. */
  function RegionRows(rows: seq<Analysed>, r: string): seq<Analysed> {
    if rows == [] then []
    else if rows[0].region == r then [rows[0]] + RegionRows(rows[1..], r)
    else RegionRows(rows[1..], r)
  }

  lemma {:induction false} RegionRowsAppend(a: seq<Analysed>, b: seq<Analysed>, r: string)
    ensures RegionRows(a + b, r) == RegionRows(a, r) + RegionRows(b, r)
    decreases |a|
  {
    if a == [] {
      assert a + b == b;
    } else {
      assert (a + b)[1..] == a[1..] + b;
      RegionRowsAppend(a[1..], b, r);
    }
  }

  lemma {:induction false} RegionRowsOfOneRegion(rows: seq<Analysed>, k: string, r: string)
    requires forall row :: row in rows ==> row.region == k
    ensures RegionRows(rows, r) == if r == k then rows else []
    decreases |rows|
  {
    if rows != [] {
      assert forall row :: row in rows[1..] ==> row in rows;
      RegionRowsOfOneRegion(rows[1..], k, r);
    }
  }

  lemma {:induction false} BlocksRegionRows(ks: seq<string>, sup: seq<SupplyRow>, dem: seq<DemandRow>, r: string)
    requires StrictlySorted(ks)
    ensures RegionRows(Blocks(ks, sup, dem), r) == if r in ks then Block(r, sup, dem) else []
    decreases |ks|
  {
    if ks != [] {
      var k := ks[0];
      assert StrictlySorted(ks[1..]);
      RegionRowsAppend(Block(k, sup, dem), Blocks(ks[1..], sup, dem), r);
      RegionRowsOfOneRegion(Block(k, sup, dem), k, r);
      BlocksRegionRows(ks[1..], sup, dem, r);
      if k == r {
        assert r !in ks[1..] by {
          forall j | 0 <= j < |ks[1..]|
            ensures ks[1..][j] != r
          {
            assert Strings.Less(ks[0], ks[j + 1]);
            Strings.LessIrreflexive(r);
          }
        }
      }
    }
  }

  function Count1(n: nat): nat {
    if n == 0 then 1 else n
  }

  /** Join multiplicity: a region has as many joined rows as the product of
      its row counts in the two tables, a missing side counting as one row;
      the rows are every (capacity, demand) pairing of the two sides. */
  lemma RegionMultiplicity(sup: seq<SupplyRow>, dem: seq<DemandRow>, r: string)
    requires InSupply(sup, r) || InDemand(dem, r)
    ensures |RegionRows(Analyse(sup, dem), r)| ==
              Count1(|CapacitiesAt(sup, r)|) * Count1(|DemandsAt(dem, r)|)
    ensures forall c, d :: c in Filled(CapacitiesAt(sup, r)) && d in Filled(DemandsAt(dem, r)) ==>
              Classify(r, c, d) in RegionRows(Analyse(sup, dem), r)
    ensures RegionRows(Analyse(sup, dem), r) == Product(r, Filled(CapacitiesAt(sup, r)), Filled(DemandsAt(dem, r)))
  {
    BlocksRegionRows(JoinKeys(sup, dem), sup, dem, r);
  }

  /** Regions appear in ascending order, each region's rows together. */
  predicate RegionOrdered(rows: seq<Analysed>) {
    forall i, j :: 0 <= i < j < |rows| ==> rows[i].region == rows[j].region || Strings.Less(rows[i].region, rows[j].region)
  }

  lemma {:induction false} BlocksOrderedByRegion(ks: seq<string>, sup: seq<SupplyRow>, dem: seq<DemandRow>)
    requires StrictlySorted(ks)
    ensures RegionOrdered(Blocks(ks, sup, dem))
    decreases |ks|
  {
    if ks != [] {
      var b := Block(ks[0], sup, dem);
      var rest := Blocks(ks[1..], sup, dem);
      assert StrictlySorted(ks[1..]);
      BlocksOrderedByRegion(ks[1..], sup, dem);
      forall row | row in rest
        ensures Strings.Less(ks[0], row.region)
      {
        var x :| 0 <= x < |ks[1..]| && ks[1..][x] == row.region;
        assert Strings.Less(ks[0], ks[x + 1]);
      }
      OrderedConcat(b, rest, ks[0]);
    }
  }

  lemma OrderedConcat(b: seq<Analysed>, rest: seq<Analysed>, k: string)
    requires forall row :: row in b ==> row.region == k
    requires forall row :: row in rest ==> Strings.Less(k, row.region)
    requires RegionOrdered(rest)
    ensures RegionOrdered(b + rest)
  {
    var rows := b + rest;
    forall i, j | 0 <= i < j < |rows|
      ensures rows[i].region == rows[j].region || Strings.Less(rows[i].region, rows[j].region)
    {
      if i < |b| {
        assert rows[i] in b;
        if j >= |b| {
          assert rows[j] in rest;
        } else {
          assert rows[j] in b;
        }
      } else {
        assert rows[i] == rest[i - |b|] && rows[j] == rest[j - |b|];
      }
    }
  }

  /** The joined table lists regions in ascending order, each region's rows
      together. */
  lemma AnalyseOrderedByRegion(sup: seq<SupplyRow>, dem: seq<DemandRow>)
    ensures RegionOrdered(Analyse(sup, dem))
  {
    BlocksOrderedByRegion(JoinKeys(sup, dem), sup, dem);
  }

  // ---------------------------------------------------------------------------
  // The summary
  // ---------------------------------------------------------------------------

  /** The number of rows with status `st`. */
  function StatusCount(rows: seq<Analysed>, st: string): nat {
    if rows == [] then 0 else (if rows[0].status == st then 1 else 0) + StatusCount(rows[1..], st)
  }

  function Get(m: map<string, nat>, k: string): nat {
    if k in m then m[k] else 0
  }

  /** `groupby("status")["region"].count().to_dict()`, one row at a time. */
  function Summary(rows: seq<Analysed>): (m: map<string, nat>)
    ensures forall st :: st in m <==> exists row :: row in rows && row.status == st
    ensures forall st :: st in m ==> m[st] == StatusCount(rows, st) > 0
    decreases |rows|
  {
    if rows == [] then map[]
    else
      var m := Summary(rows[1..]);
      var st := rows[0].status;
      assert forall row :: row in rows <==> row == rows[0] || row in rows[1..];
      NoWitnessNoCount(rows[1..], st);
      m[st := Get(m, st) + 1]
  }

  /** The counts of a report cover every row: each row is counted under
      exactly one of the two labels. */
  lemma {:induction false} SummaryAddsUp(rows: seq<Analysed>)
    requires forall row :: row in rows ==> row.status == SurplusLabel || row.status == DeficitLabel
    ensures Summary(rows).Keys <= {SurplusLabel, DeficitLabel}
    ensures Get(Summary(rows), SurplusLabel) + Get(Summary(rows), DeficitLabel) == |rows|
    decreases |rows|
  {
    if rows != [] {
      assert forall row :: row in rows[1..] ==> row in rows;
      SummaryAddsUp(rows[1..]);
      assert rows[0] in rows;
      CountsAgree(rows, SurplusLabel);
      CountsAgree(rows, DeficitLabel);
      CountsAgree(rows[1..], SurplusLabel);
      CountsAgree(rows[1..], DeficitLabel);
    }
  }

  lemma {:induction false} NoWitnessNoCount(rows: seq<Analysed>, st: string)
    ensures (forall row :: row in rows ==> row.status != st) ==> StatusCount(rows, st) == 0
    decreases |rows|
  {
    if rows != [] {
      assert forall row :: row in rows[1..] ==> row in rows;
      NoWitnessNoCount(rows[1..], st);
    }
  }

  lemma CountsAgree(rows: seq<Analysed>, st: string)
    ensures Get(Summary(rows), st) == StatusCount(rows, st)
  {
    if st !in Summary(rows) && StatusCount(rows, st) > 0 {
      StatusCountWitness(rows, st);
    }
  }

  lemma {:induction false} StatusCountWitness(rows: seq<Analysed>, st: string)
    requires StatusCount(rows, st) > 0
    ensures exists row :: row in rows && row.status == st
    decreases |rows|
  {
    if rows[0].status != st {
      StatusCountWitness(rows[1..], st);
      var row :| row in rows[1..] && row.status == st;
      assert row in rows;
    }
  }

  /** The report's summary: both statuses' counts add up to the joined rows. */
  lemma ReportSummaryAddsUp(sup: seq<SupplyRow>, dem: seq<DemandRow>)
    ensures var merged := Analyse(sup, dem);
      Get(Summary(merged), SurplusLabel) + Get(Summary(merged), DeficitLabel) == |merged|
  {
    SummaryAddsUp(Analyse(sup, dem));
  }
}
