/** The greedy allocation behind the supply endpoint (`supply_alloc`): each
    region's demand, in request order, is served from warehouses visited in
    descending order of capacity, drawing on what earlier regions left; what
    cannot be served is reported once as unfulfilled. */
module SupplyAlloc {
  import opened Wrappers
  import Sorting

  datatype Warehouse = Warehouse(id: string, capacity: int)
  datatype Demand = Demand(region: string, amount: int)

  /** One entry of the response; `warehouse == None` is the "unfulfilled" note. */
  datatype Allocation = Allocation(region: string, warehouse: Option<string>, quantity: int)

  /** One region's pass: its entries, the warehouse positions they drew
      on, the remaining capacities afterwards and the demand left over. */
  datatype Served = Served(allocs: seq<Allocation>, picks: seq<nat>, remaining: seq<int>, left: int)

  /** The whole response and the capacities left afterwards. */
  datatype Ledger = Ledger(allocs: seq<Allocation>, remaining: seq<int>)

  function Min(a: int, b: int): int {
    if a <= b then a else b
  }

  function Max0(a: int): nat {
    if a >= 0 then a else 0
  }

  function Indices(n: nat): (r: seq<nat>)
    ensures |r| == n && forall i :: 0 <= i < n ==> r[i] == i
  {
    seq(n, i requires 0 <= i < n => i)
  }

  function Capacities(ws: seq<Warehouse>): (r: seq<int>)
    ensures |r| == |ws| && forall i :: 0 <= i < |ws| ==> r[i] == ws[i].capacity
  {
    seq(|ws|, i requires 0 <= i < |ws| => ws[i].capacity)
  }

  /** Every entry of `order` is a position below `n`. */
  predicate Indexes(order: seq<nat>, n: nat) {
    forall i :: 0 <= i < |order| ==> order[i] < n
  }

  /** The positions of `order` are distinct positions of `ws`. */
  predicate ValidOrder(order: seq<nat>, n: nat) {
    && Indexes(order, n)
    && (forall i, j :: 0 <= i < j < |order| ==> order[i] != order[j])
  }

  predicate ByCapacity(order: seq<nat>, ws: seq<Warehouse>)
    requires Indexes(order, |ws|)
  {
    forall i, j :: 0 <= i < j < |order| ==> ws[order[i]].capacity >= ws[order[j]].capacity
  }

  /** `df.sort_values('capacity', ascending=False)`: every warehouse once,
      largest capacity first (ties in listing order). */
  function VisitOrder(ws: seq<Warehouse>): (order: seq<nat>)
    ensures |order| == |ws| && ValidOrder(order, |ws|)
    ensures forall k :: 0 <= k < |ws| ==> k in order
    ensures ByCapacity(order, ws)
  {
    var idx := Indices(|ws|);
    var key := (i: nat) => if i < |ws| then -ws[i].capacity else 0;
    var order := Sorting.SortBy<nat>(idx, key);
    Sorting.PermutationKeepsDistinct(idx, order);
    forall i | 0 <= i < |order|
      ensures order[i] < |ws|
    {
      assert order[i] in multiset(idx);
    }
    forall k | 0 <= k < |ws|
      ensures k in order
    {
      assert idx[k] in multiset(order);
    }
    order
  }

  /** The sum of the positive remaining capacities at `order`'s positions:
      the most a region can be served. */
  function Available(order: seq<nat>, remaining: seq<int>): nat
    requires Indexes(order, |remaining|)
  {
    if order == [] then 0 else Max0(remaining[order[0]]) + Available(order[1..], remaining)
  }

  function Sum(s: seq<int>): int {
    if s == [] then 0 else s[0] + Sum(s[1..])
  }

  /** The amount the warehouse entries of `allocs` hand out. */
  function Fulfilled(allocs: seq<Allocation>): int {
    if allocs == [] then 0
    else (if allocs[0].warehouse.Some? then allocs[0].quantity else 0) + Fulfilled(allocs[1..])
  }

  lemma {:induction false} SumUpdate(s: seq<int>, k: nat, v: int)
    requires k < |s|
    ensures Sum(s[k := v]) == Sum(s) - s[k] + v
    decreases |s|
  {
    if k > 0 {
      SumUpdate(s[1..], k - 1, v);
      assert s[k := v][1..] == s[1..][k - 1 := v];
    }
  }

  lemma {:induction false} FulfilledAppend(a: seq<Allocation>, b: seq<Allocation>)
    ensures Fulfilled(a + b) == Fulfilled(a) + Fulfilled(b)
    decreases |a|
  {
    if a != [] {
      FulfilledAppend(a[1..], b);
      assert (a + b)[1..] == a[1..] + b;
    } else {
      assert a + b == b;
    }
  }

  /** The inner loop for one region: visit `order`, stop once the demand is
      met, take what each warehouse still has. */
  function ServeRegion(region: string, rem: int, order: seq<nat>, ws: seq<Warehouse>, remaining: seq<int>): (s: Served)
    requires |remaining| == |ws| && Indexes(order, |ws|)
    ensures |s.remaining| == |remaining|
    decreases |order|
  {
    if order == [] || rem <= 0 then Served([], [], remaining, rem)
    else
      var i := order[0];
      var take := Min(remaining[i], rem);
      if take > 0 then
        var s := ServeRegion(region, rem - take, order[1..], ws, remaining[i := remaining[i] - take]);
        Served([Allocation(region, Some(ws[i].id), take)] + s.allocs, [i] + s.picks, s.remaining, s.left)
      else
        ServeRegion(region, rem, order[1..], ws, remaining)
  }

  /** One region's pass, its entries: each hands out a positive amount from
      the warehouse it names. */
  lemma {:induction false} ServeRegionShape(region: string, rem: int, order: seq<nat>, ws: seq<Warehouse>, remaining: seq<int>)
    requires |remaining| == |ws| && Indexes(order, |ws|)
    ensures var s := ServeRegion(region, rem, order, ws, remaining);
      && |s.allocs| == |s.picks| <= |order|
      && (forall j :: 0 <= j < |s.allocs| ==>
            && s.picks[j] < |ws|
            && s.allocs[j] == Allocation(region, Some(ws[s.picks[j]].id), s.allocs[j].quantity)
            && 0 < s.allocs[j].quantity)
    decreases |order|
  {
    if order != [] && rem > 0 {
      var i := order[0];
      var take := Min(remaining[i], rem);
      if take > 0 {
        ServeRegionShape(region, rem - take, order[1..], ws, remaining[i := remaining[i] - take]);
      } else {
        ServeRegionShape(region, rem, order[1..], ws, remaining);
      }
    }
  }

  /** One region's pass draws only on warehouses of the visit order. */
  lemma {:induction false} ServeRegionVisits(region: string, rem: int, order: seq<nat>, ws: seq<Warehouse>, remaining: seq<int>)
    requires |remaining| == |ws| && Indexes(order, |ws|)
    ensures var s := ServeRegion(region, rem, order, ws, remaining);
      forall j :: 0 <= j < |s.picks| ==> s.picks[j] in order
    decreases |order|
  {
    if order != [] && rem > 0 {
      var i := order[0];
      var take := Min(remaining[i], rem);
      var r := ServeRegion(region, rem, order, ws, remaining);
      if take > 0 {
        var after := remaining[i := remaining[i] - take];
        ServeRegionVisits(region, rem - take, order[1..], ws, after);
        var s := ServeRegion(region, rem - take, order[1..], ws, after);
        assert var s' := ServeRegion(region, rem - take, order[1..], ws, after);
          forall j :: 0 <= j < |s'.picks| ==> s'.picks[j] in order[1..];
        assert r.picks == [i] + s.picks;
        forall j | 0 <= j < |r.picks|
          ensures r.picks[j] in order
        {
          if j == 0 {
            assert r.picks[0] == order[0];
          } else {
            assert r.picks[j] == s.picks[j - 1] && s.picks[j - 1] in order[1..];
          }
        }
      } else {
        ServeRegionVisits(region, rem, order[1..], ws, remaining);
        assert var s' := ServeRegion(region, rem, order[1..], ws, remaining);
          forall j :: 0 <= j < |s'.picks| ==> s'.picks[j] in order[1..];
        var s := ServeRegion(region, rem, order[1..], ws, remaining);
        assert r == s;
        forall j | 0 <= j < |r.picks|
          ensures r.picks[j] in order
        {
          assert s.picks[j] in order[1..];
        }
      }
    }
  }

  /** One region's pass, its amounts: what is handed out plus what is left
      over is the demand, and it is exactly what the capacities lost. A pass
      that leaves nothing over has met the demand, or had none to meet. */
  lemma {:induction false} ServeRegionConserves(region: string, rem: int, order: seq<nat>, ws: seq<Warehouse>, remaining: seq<int>)
    requires |remaining| == |ws| && Indexes(order, |ws|)
    ensures var s := ServeRegion(region, rem, order, ws, remaining);
      && Fulfilled(s.allocs) + s.left == rem
      && Sum(remaining) - Sum(s.remaining) == Fulfilled(s.allocs)
      && (rem <= 0 ==> s.allocs == [] && s.left == rem)
      && (s.left <= 0 ==> s.left == 0 || s.left == rem)
    decreases |order|
  {
    if order != [] && rem > 0 {
      var i := order[0];
      var take := Min(remaining[i], rem);
      if take > 0 {
        var after := remaining[i := remaining[i] - take];
        ServeRegionConserves(region, rem - take, order[1..], ws, after);
        var s := ServeRegion(region, rem - take, order[1..], ws, after);
        SumUpdate(remaining, i, remaining[i] - take);
        FulfilledAppend([Allocation(region, Some(ws[i].id), take)], s.allocs);
      } else {
        ServeRegionConserves(region, rem, order[1..], ws, remaining);
      }
    }
  }

  /** One region's pass never raises a capacity, and never draws one below zero. */
  lemma {:induction false} ServeRegionDraws(region: string, rem: int, order: seq<nat>, ws: seq<Warehouse>, remaining: seq<int>)
    requires |remaining| == |ws| && Indexes(order, |ws|)
    ensures var s := ServeRegion(region, rem, order, ws, remaining);
      forall k :: 0 <= k < |remaining| ==> s.remaining[k] == remaining[k] || 0 <= s.remaining[k] < remaining[k]
    decreases |order|
  {
    if order != [] && rem > 0 {
      var i := order[0];
      var take := Min(remaining[i], rem);
      if take > 0 {
        ServeRegionDraws(region, rem - take, order[1..], ws, remaining[i := remaining[i] - take]);
      } else {
        ServeRegionDraws(region, rem, order[1..], ws, remaining);
      }
    }
  }

  /** The outer loop body: serve the region, then note what is unserved. */
  function AllocateRegion(d: Demand, ws: seq<Warehouse>, order: seq<nat>, remaining: seq<int>): (l: Ledger)
    requires |remaining| == |ws| && Indexes(order, |ws|)
    ensures |l.remaining| == |remaining|
  {
    var s := ServeRegion(d.region, d.amount, order, ws, remaining);
    if s.left > 0 then Ledger(s.allocs + [Allocation(d.region, None, s.left)], s.remaining)
    else Ledger(s.allocs, s.remaining)
  }

  /** A region with no positive demand gets no entry at all; otherwise its
      entries hand out positive amounts, at most one unfulfilled note comes
      last, and served plus unserved is the demand. */
  lemma AllocateRegionFacts(d: Demand, ws: seq<Warehouse>, order: seq<nat>, remaining: seq<int>)
    requires |remaining| == |ws| && Indexes(order, |ws|)
    ensures var l := AllocateRegion(d, ws, order, remaining);
      && (d.amount <= 0 ==> l == Ledger([], remaining))
      && (forall j :: 0 <= j < |l.allocs| ==> l.allocs[j].region == d.region && l.allocs[j].quantity > 0)
      && (forall j :: 0 <= j < |l.allocs| && l.allocs[j].warehouse.None? ==> j == |l.allocs| - 1)
      && (d.amount > 0 ==> Fulfilled(l.allocs) + Unfulfilled(l.allocs) == d.amount)
      && Sum(remaining) - Sum(l.remaining) == Fulfilled(l.allocs)
      && (forall k :: 0 <= k < |remaining| ==> l.remaining[k] == remaining[k] || 0 <= l.remaining[k] < remaining[k])
  {
    ServeRegionShape(d.region, d.amount, order, ws, remaining);
    ServeRegionConserves(d.region, d.amount, order, ws, remaining);
    ServeRegionDraws(d.region, d.amount, order, ws, remaining);
    var s := ServeRegion(d.region, d.amount, order, ws, remaining);
    NoNoteInServed(s.allocs);
    if s.left > 0 {
      var note := Allocation(d.region, None, s.left);
      FulfilledAppend(s.allocs, [note]);
      UnfulfilledAppend(s.allocs, [note]);
    }
  }

  /** The amount the unfulfilled notes of `allocs` report. */
  function Unfulfilled(allocs: seq<Allocation>): int {
    if allocs == [] then 0
    else (if allocs[0].warehouse.None? then allocs[0].quantity else 0) + Unfulfilled(allocs[1..])
  }

  lemma {:induction false} UnfulfilledAppend(a: seq<Allocation>, b: seq<Allocation>)
    ensures Unfulfilled(a + b) == Unfulfilled(a) + Unfulfilled(b)
    decreases |a|
  {
    if a != [] {
      UnfulfilledAppend(a[1..], b);
      assert (a + b)[1..] == a[1..] + b;
    } else {
      assert a + b == b;
    }
  }

  lemma {:induction false} NoNoteInServed(allocs: seq<Allocation>)
    requires forall j :: 0 <= j < |allocs| ==> allocs[j].warehouse.Some?
    ensures Unfulfilled(allocs) == 0
    decreases |allocs|
  {
    if allocs != [] {
      NoNoteInServed(allocs[1..]);
    }
  }

  /** `for region, d in demand.items()`, the capacities carried from one
      region to the next. */
  function AllocateAll(demands: seq<Demand>, ws: seq<Warehouse>, order: seq<nat>, remaining: seq<int>): (l: Ledger)
    requires |remaining| == |ws| && Indexes(order, |ws|)
    ensures |l.remaining| == |remaining|
    decreases |demands|
  {
    if demands == [] then Ledger([], remaining)
    else
      var first := AllocateRegion(demands[0], ws, order, remaining);
      var rest := AllocateAll(demands[1..], ws, order, first.remaining);
      Ledger(first.allocs + rest.allocs, rest.remaining)
  }

  /** Over a whole request, no warehouse hands out more than it had (a
      non-negative capacity stays non-negative, a negative one is never
      touched) and the capacity used is what the entries report. */
  lemma {:induction false} AllocateAllFacts(demands: seq<Demand>, ws: seq<Warehouse>, order: seq<nat>, remaining: seq<int>)
    requires |remaining| == |ws| && Indexes(order, |ws|)
    ensures var l := AllocateAll(demands, ws, order, remaining);
      && Sum(remaining) - Sum(l.remaining) == Fulfilled(l.allocs)
      && (forall k :: 0 <= k < |remaining| && remaining[k] >= 0 ==> 0 <= l.remaining[k] <= remaining[k])
      && (forall k :: 0 <= k < |remaining| && remaining[k] < 0 ==> l.remaining[k] == remaining[k])
    decreases |demands|
  {
    if demands != [] {
      var first := AllocateRegion(demands[0], ws, order, remaining);
      AllocateRegionFacts(demands[0], ws, order, remaining);
      AllocateAllFacts(demands[1..], ws, order, first.remaining);
      var rest := AllocateAll(demands[1..], ws, order, first.remaining);
      FulfilledAppend(first.allocs, rest.allocs);
    }
  }

  /** `supply_alloc` on the demand object and the warehouse table. */
  function SupplyAlloc(demands: seq<Demand>, ws: seq<Warehouse>): (allocs: seq<Allocation>)
    ensures Sum(Capacities(ws)) - Fulfilled(allocs) ==
              Sum(AllocateAll(demands, ws, VisitOrder(ws), Capacities(ws)).remaining)
  {
    AllocateAllFacts(demands, ws, VisitOrder(ws), Capacities(ws));
    AllocateAll(demands, ws, VisitOrder(ws), Capacities(ws)).allocs
  }

  // ---------------------------------------------------------------------------
  // What each warehouse hands out
  // ---------------------------------------------------------------------------

  /** The amount the entries of `allocs` naming warehouse `id` hand out. */
  function HandedOut(allocs: seq<Allocation>, id: string): int {
    if allocs == [] then 0
    else (if allocs[0].warehouse == Some(id) then allocs[0].quantity else 0) + HandedOut(allocs[1..], id)
  }

  /** The capacity the warehouses called `id` lost between `before` and `after`. */
  function Drawn(ws: seq<Warehouse>, before: seq<int>, after: seq<int>, id: string): int
    requires |before| == |ws| && |after| == |ws|
  {
    if ws == [] then 0
    else (if ws[0].id == id then before[0] - after[0] else 0) + Drawn(ws[1..], before[1..], after[1..], id)
  }

  predicate DistinctIds(ws: seq<Warehouse>) {
    forall a, b :: 0 <= a < b < |ws| ==> ws[a].id != ws[b].id
  }

  lemma {:induction false} HandedOutAppend(a: seq<Allocation>, b: seq<Allocation>, id: string)
    ensures HandedOut(a + b, id) == HandedOut(a, id) + HandedOut(b, id)
    decreases |a|
  {
    if a != [] {
      HandedOutAppend(a[1..], b, id);
      assert (a + b)[1..] == a[1..] + b;
    } else {
      assert a + b == b;
    }
  }

  lemma {:induction false} DrawnChain(ws: seq<Warehouse>, a: seq<int>, b: seq<int>, c: seq<int>, id: string)
    requires |a| == |ws| && |b| == |ws| && |c| == |ws|
    ensures Drawn(ws, a, b, id) + Drawn(ws, b, c, id) == Drawn(ws, a, c, id)
    decreases |ws|
  {
    if ws != [] {
      DrawnChain(ws[1..], a[1..], b[1..], c[1..], id);
    }
  }

  lemma {:induction false} DrawnSame(ws: seq<Warehouse>, a: seq<int>, id: string)
    requires |a| == |ws|
    ensures Drawn(ws, a, a, id) == 0
    decreases |ws|
  {
    if ws != [] {
      DrawnSame(ws[1..], a[1..], id);
    }
  }

  /** Taking `t` from position `i` draws `t` on `ws[i]`'s name and nothing on any other. */
  lemma {:induction false} DrawnTake(ws: seq<Warehouse>, a: seq<int>, i: nat, t: int, id: string)
    requires |a| == |ws| && i < |ws|
    ensures Drawn(ws, a, a[i := a[i] - t], id) == if ws[i].id == id then t else 0
    decreases |ws|
  {
    if i == 0 {
      assert a[i := a[i] - t][1..] == a[1..];
      DrawnSame(ws[1..], a[1..], id);
    } else {
      assert a[i := a[i] - t][1..] == a[1..][i - 1 := a[i] - t];
      DrawnTake(ws[1..], a[1..], i - 1, t, id);
    }
  }

  /** With distinct ids, what `ws[k]`'s name lost is what position `k` lost. */
  lemma {:induction false} DrawnDistinct(ws: seq<Warehouse>, a: seq<int>, b: seq<int>, k: nat)
    requires |a| == |ws| && |b| == |ws| && k < |ws| && DistinctIds(ws)
    ensures Drawn(ws, a, b, ws[k].id) == a[k] - b[k]
    decreases |ws|
  {
    if k == 0 {
      DrawnNone(ws[1..], a[1..], b[1..], ws[0].id);
    } else {
      assert DistinctIds(ws[1..]) by {
        forall x, y | 0 <= x < y < |ws[1..]|
          ensures ws[1..][x].id != ws[1..][y].id
        {
          assert ws[1..][x] == ws[x + 1] && ws[1..][y] == ws[y + 1];
        }
      }
      assert ws[1..][k - 1] == ws[k];
      DrawnDistinct(ws[1..], a[1..], b[1..], k - 1);
    }
  }

  lemma {:induction false} DrawnNone(ws: seq<Warehouse>, a: seq<int>, b: seq<int>, id: string)
    requires |a| == |ws| && |b| == |ws|
    requires forall x :: 0 <= x < |ws| ==> ws[x].id != id
    ensures Drawn(ws, a, b, id) == 0
    decreases |ws|
  {
    if ws != [] {
      assert forall x :: 0 <= x < |ws[1..]| ==> ws[1..][x] == ws[x + 1];
      DrawnNone(ws[1..], a[1..], b[1..], id);
    }
  }

  /** One region's pass: the entries naming a warehouse add up to what the
      warehouses of that name lost. */
  lemma {:induction false} ServeRegionPerWarehouse(region: string, rem: int, order: seq<nat>, ws: seq<Warehouse>,
                                                    remaining: seq<int>, id: string)
    requires |remaining| == |ws| && Indexes(order, |ws|)
    ensures var s := ServeRegion(region, rem, order, ws, remaining);
      HandedOut(s.allocs, id) == Drawn(ws, remaining, s.remaining, id)
    decreases |order|
  {
    var s := ServeRegion(region, rem, order, ws, remaining);
    if order == [] || rem <= 0 {
      DrawnSame(ws, remaining, id);
    } else {
      var i := order[0];
      var take := Min(remaining[i], rem);
      if take > 0 {
        var after := remaining[i := remaining[i] - take];
        ServeRegionPerWarehouse(region, rem - take, order[1..], ws, after, id);
        var rest := ServeRegion(region, rem - take, order[1..], ws, after);
        var a := Allocation(region, Some(ws[i].id), take);
        assert s.allocs == [a] + rest.allocs && s.remaining == rest.remaining;
        assert ([a] + rest.allocs)[1..] == rest.allocs;
        DrawnTake(ws, remaining, i, take, id);
        DrawnChain(ws, remaining, after, rest.remaining, id);
      } else {
        ServeRegionPerWarehouse(region, rem, order[1..], ws, remaining, id);
      }
    }
  }

  /** Over a whole request, the entries naming a warehouse add up to what the
      warehouses of that name lost. */
  lemma {:induction false} AllocateAllPerWarehouse(demands: seq<Demand>, ws: seq<Warehouse>, order: seq<nat>,
                                                    remaining: seq<int>, id: string)
    requires |remaining| == |ws| && Indexes(order, |ws|)
    ensures var l := AllocateAll(demands, ws, order, remaining);
      HandedOut(l.allocs, id) == Drawn(ws, remaining, l.remaining, id)
    decreases |demands|
  {
    if demands == [] {
      DrawnSame(ws, remaining, id);
    } else {
      var d := demands[0];
      var s := ServeRegion(d.region, d.amount, order, ws, remaining);
      var first := AllocateRegion(d, ws, order, remaining);
      ServeRegionPerWarehouse(d.region, d.amount, order, ws, remaining, id);
      if s.left > 0 {
        var note := Allocation(d.region, None, s.left);
        HandedOutAppend(s.allocs, [note], id);
        assert HandedOut([note], id) == 0 by { assert [note][1..] == []; }
      }
      assert HandedOut(first.allocs, id) == Drawn(ws, remaining, first.remaining, id);
      AllocateAllPerWarehouse(demands[1..], ws, order, first.remaining, id);
      var rest := AllocateAll(demands[1..], ws, order, first.remaining);
      HandedOutAppend(first.allocs, rest.allocs, id);
      DrawnChain(ws, remaining, first.remaining, rest.remaining, id);
    }
  }

  /** With distinct warehouse ids, each warehouse hands out exactly what its
      capacity lost, so never more than a non-negative capacity and nothing
      from a negative one. */
  lemma SupplyAllocPerWarehouse(demands: seq<Demand>, ws: seq<Warehouse>, k: nat)
    requires k < |ws| && DistinctIds(ws)
    ensures var l := AllocateAll(demands, ws, VisitOrder(ws), Capacities(ws));
      HandedOut(SupplyAlloc(demands, ws), ws[k].id) == ws[k].capacity - l.remaining[k]
    ensures 0 <= HandedOut(SupplyAlloc(demands, ws), ws[k].id) <= Max0(ws[k].capacity)
  {
    var order, caps := VisitOrder(ws), Capacities(ws);
    var l := AllocateAll(demands, ws, order, caps);
    AllocateAllPerWarehouse(demands, ws, order, caps, ws[k].id);
    DrawnDistinct(ws, caps, l.remaining, k);
    AllocateAllFacts(demands, ws, order, caps);
  }

  // ---------------------------------------------------------------------------
  // How much each region gets
  // ---------------------------------------------------------------------------

  lemma {:induction false} AvailableUnchanged(order: seq<nat>, remaining: seq<int>, k: nat, v: int)
    requires k < |remaining| && Indexes(order, |remaining|)
    requires k !in order
    ensures Available(order, remaining[k := v]) == Available(order, remaining)
    decreases |order|
  {
    if order != [] {
      AvailableUnchanged(order[1..], remaining, k, v);
    }
  }

  /** A region with positive demand gets the smaller of its demand and what
      the warehouses still have; the rest is left over. */
  lemma {:induction false} ServeRegionGetsMin(region: string, rem: int, order: seq<nat>, ws: seq<Warehouse>, remaining: seq<int>)
    requires |remaining| == |ws| && ValidOrder(order, |ws|)
    requires rem > 0
    ensures ServeRegion(region, rem, order, ws, remaining).left == Max0(rem - Available(order, remaining))
    decreases |order|
  {
    if order != [] {
      var i := order[0];
      var take := Min(remaining[i], rem);
      assert ValidOrder(order[1..], |ws|) by {
        forall a, b | 0 <= a < b < |order[1..]|
          ensures order[1..][a] != order[1..][b]
        {
          assert order[1..][a] == order[a + 1] && order[1..][b] == order[b + 1];
        }
      }
      if take > 0 {
        var after := remaining[i := remaining[i] - take];
        assert i !in order[1..] by {
          forall j | 0 <= j < |order[1..]|
            ensures order[1..][j] != i
          {
            assert order[1..][j] == order[j + 1];
          }
        }
        AvailableUnchanged(order[1..], remaining, i, remaining[i] - take);
        if rem - take > 0 {
          ServeRegionGetsMin(region, rem - take, order[1..], ws, after);
        }
      } else {
        ServeRegionGetsMin(region, rem, order[1..], ws, remaining);
      }
    }
  }

  /** A region is reported unfulfilled exactly when its demand exceeds the
      capacity still available, and the note carries the shortfall. */
  lemma UnfulfilledIffShort(d: Demand, ws: seq<Warehouse>, order: seq<nat>, remaining: seq<int>)
    requires |remaining| == |ws| && ValidOrder(order, |ws|)
    ensures Unfulfilled(AllocateRegion(d, ws, order, remaining).allocs) > 0 <==> d.amount > Available(order, remaining)
    ensures Fulfilled(AllocateRegion(d, ws, order, remaining).allocs) ==
              if d.amount <= 0 then 0 else Min(d.amount, Available(order, remaining))
  {
    AllocateRegionFacts(d, ws, order, remaining);
    if d.amount > 0 {
      ServeRegionGetsMin(d.region, d.amount, order, ws, remaining);
      ServeRegionShape(d.region, d.amount, order, ws, remaining);
      ServeRegionConserves(d.region, d.amount, order, ws, remaining);
      var s := ServeRegion(d.region, d.amount, order, ws, remaining);
      NoNoteInServed(s.allocs);
      if s.left > 0 {
        UnfulfilledAppend(s.allocs, [Allocation(d.region, None, s.left)]);
        FulfilledAppend(s.allocs, [Allocation(d.region, None, s.left)]);
      }
    }
  }

  /** Serving a request is serving its first regions, then the rest from
      what they left. */
  lemma {:induction false} AllocateAllSplits(a: seq<Demand>, b: seq<Demand>, ws: seq<Warehouse>, order: seq<nat>, remaining: seq<int>)
    requires |remaining| == |ws| && Indexes(order, |ws|)
    ensures AllocateAll(a + b, ws, order, remaining).allocs ==
              AllocateAll(a, ws, order, remaining).allocs
              + AllocateAll(b, ws, order, AllocateAll(a, ws, order, remaining).remaining).allocs
    ensures AllocateAll(a + b, ws, order, remaining).remaining ==
              AllocateAll(b, ws, order, AllocateAll(a, ws, order, remaining).remaining).remaining
    decreases |a|
  {
    if a == [] {
      assert a + b == b;
    } else {
      var first := AllocateRegion(a[0], ws, order, remaining);
      assert (a + b)[0] == a[0] && (a + b)[1..] == a[1..] + b;
      AllocateAllSplits(a[1..], b, ws, order, first.remaining);
      var tail := AllocateAll(a[1..], ws, order, first.remaining);
      var whole := AllocateAll(a, ws, order, remaining);
      assert whole == Ledger(first.allocs + tail.allocs, tail.remaining);
      var later := AllocateAll(b, ws, order, tail.remaining);
      assert AllocateAll(a + b, ws, order, remaining).allocs == first.allocs + (tail.allocs + later.allocs);
    }
  }

  // ---------------------------------------------------------------------------
  // The loops as written
  // ---------------------------------------------------------------------------

  /** One turn of the inner loop, at position `j` of the visit order. */
  lemma ServeStep(region: string, rem: int, order: seq<nat>, j: nat, ws: seq<Warehouse>, remaining: seq<int>)
    requires |remaining| == |ws| && Indexes(order, |ws|)
    requires j < |order| && rem > 0
    ensures var i := order[j];
      var take := Min(remaining[i], rem);
      ServeRegion(region, rem, order[j..], ws, remaining) ==
        if take > 0 then
          var s := ServeRegion(region, rem - take, order[j + 1..], ws, remaining[i := remaining[i] - take]);
          Served([Allocation(region, Some(ws[i].id), take)] + s.allocs, [i] + s.picks, s.remaining, s.left)
        else ServeRegion(region, rem, order[j + 1..], ws, remaining)
  {
    assert order[j..][0] == order[j] && order[j..][1..] == order[j + 1..];
  }

  /** One turn of the outer loop, at position `r` of the request. */
  lemma AllocateStep(demands: seq<Demand>, r: nat, ws: seq<Warehouse>, order: seq<nat>, remaining: seq<int>)
    requires |remaining| == |ws| && Indexes(order, |ws|)
    requires r < |demands|
    ensures var first := AllocateRegion(demands[r], ws, order, remaining);
      var rest := AllocateAll(demands[r + 1..], ws, order, first.remaining);
      AllocateAll(demands[r..], ws, order, remaining) == Ledger(first.allocs + rest.allocs, rest.remaining)
  {
    assert demands[r..][0] == demands[r] && demands[r..][1..] == demands[r + 1..];
  }

  /** The inner loop's state at position `j` of the visit order: the entries
      so far, followed by what the rest of the pass adds, make up the whole
      pass `target`. */
  ghost predicate Pending(target: Served, region: string, served: seq<Allocation>, rem: int, order: seq<nat>, j: nat,
                          ws: seq<Warehouse>, remaining: seq<int>)
    requires |remaining| == |ws| && Indexes(order, |ws|) && j <= |order|
  {
    var rest := ServeRegion(region, rem, order[j..], ws, remaining);
    target.allocs == served + rest.allocs && target.remaining == rest.remaining && target.left == rest.left
  }

  lemma PendingStep(target: Served, region: string, served: seq<Allocation>, rem: int, order: seq<nat>, j: nat,
                    ws: seq<Warehouse>, remaining: seq<int>)
    requires |remaining| == |ws| && Indexes(order, |ws|) && j < |order| && rem > 0
    requires Pending(target, region, served, rem, order, j, ws, remaining)
    ensures var i := order[j];
      var take := Min(remaining[i], rem);
      if take > 0 then
        Pending(target, region, served + [Allocation(region, Some(ws[i].id), take)], rem - take, order, j + 1,
                ws, remaining[i := remaining[i] - take])
      else Pending(target, region, served, rem, order, j + 1, ws, remaining)
  {
    var i := order[j];
    var take := Min(remaining[i], rem);
    ServeStep(region, rem, order, j, ws, remaining);
    if take > 0 {
      var a := Allocation(region, Some(ws[i].id), take);
      var next := ServeRegion(region, rem - take, order[j + 1..], ws, remaining[i := remaining[i] - take]);
      assert served + ([a] + next.allocs) == (served + [a]) + next.allocs;
    }
  }

  lemma PendingDone(target: Served, region: string, served: seq<Allocation>, rem: int, order: seq<nat>, j: nat,
                    ws: seq<Warehouse>, remaining: seq<int>)
    requires |remaining| == |ws| && Indexes(order, |ws|) && j <= |order|
    requires j == |order| || rem <= 0
    requires Pending(target, region, served, rem, order, j, ws, remaining)
    ensures target.allocs == served && target.remaining == remaining && target.left == rem
  {
    assert served + [] == served;
  }

  /** The inner loop of `supply_alloc` for one region, drawing on a mutable
      copy of the capacities. */
  method ServeLoop(d: Demand, ws: seq<Warehouse>, order: seq<nat>, start: seq<int>)
      returns (served: seq<Allocation>, remaining: seq<int>)
    requires |start| == |ws| && Indexes(order, |ws|)
    ensures Ledger(served, remaining) == AllocateRegion(d, ws, order, start)
  {
    ghost var target := ServeRegion(d.region, d.amount, order, ws, start);
    remaining := start;
    var rem := d.amount;
    served := [];
    var j := 0;
    assert order[0..] == order;
    while j < |order| && rem > 0
      invariant 0 <= j <= |order| && |remaining| == |ws|
      invariant Pending(target, d.region, served, rem, order, j, ws, remaining)
    {
      var i := order[j];
      var take := Min(remaining[i], rem);
      PendingStep(target, d.region, served, rem, order, j, ws, remaining);
      if take > 0 {
        served := served + [Allocation(d.region, Some(ws[i].id), take)];
        remaining := remaining[i := remaining[i] - take];
        rem := rem - take;
      }
      j := j + 1;
    }
    PendingDone(target, d.region, served, rem, order, j, ws, remaining);
    if rem > 0 {
      served := served + [Allocation(d.region, None, rem)];
    }
  }

  /** The outer loop of `supply_alloc`: each region in request order, the
      capacities carried from one region to the next. */
  method AllocateLoop(demands: seq<Demand>, ws: seq<Warehouse>, order: seq<nat>) returns (allocs: seq<Allocation>)
    requires Indexes(order, |ws|)
    ensures allocs == AllocateAll(demands, ws, order, Capacities(ws)).allocs
  {
    var remaining := Capacities(ws);
    ghost var total := AllocateAll(demands, ws, order, remaining).allocs;
    allocs := [];
    var r := 0;
    while r < |demands|
      invariant 0 <= r <= |demands| && |remaining| == |ws|
      invariant allocs + AllocateAll(demands[r..], ws, order, remaining).allocs == total
    {
      AllocateStep(demands, r, ws, order, remaining);
      var served, after := ServeLoop(demands[r], ws, order, remaining);
      ghost var later := AllocateAll(demands[r + 1..], ws, order, after).allocs;
      assert AllocateAll(demands[r..], ws, order, remaining).allocs == served + later;
      assert allocs + (served + later) == (allocs + served) + later;
      allocs := allocs + served;
      remaining := after;
      r := r + 1;
    }
    assert AllocateAll(demands[r..], ws, order, remaining).allocs == [];
    assert allocs + [] == allocs;
  }

  /** `supply_alloc` as written: sort the warehouses, then run the loops. */
  method Allocate(demands: seq<Demand>, ws: seq<Warehouse>) returns (allocs: seq<Allocation>)
    ensures allocs == SupplyAlloc(demands, ws)
  {
    var order := VisitOrder(ws);
    allocs := AllocateLoop(demands, ws, order);
  }
}
