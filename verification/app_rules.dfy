/** The two pure rules inside the prediction endpoints of the web API: how
    `predict_price` turns the caller's recent prices into lag features, and
    how `predict_health` labels a classifier probability. */
module AppRules {
  import opened Wrappers
  import opened Tables
  import DataPrep

  /** The number of lag features the price models take. */
  const LagWindow: nat := 7
  /** The price used for every lag when the caller sends none. */
  const DefaultPrice: real := 1000.0
  const HealthyThreshold: real := 0.5

  /** `recent` after padding: a short non-empty list is padded on the left
      with copies of its first price; an empty one becomes seven defaults. */
  function PadRecent(recent: seq<real>): (r: seq<real>)
    ensures |recent| >= LagWindow ==> r == recent
    ensures recent == [] ==> |r| == LagWindow && forall i :: 0 <= i < |r| ==> r[i] == DefaultPrice
    ensures 0 < |recent| < LagWindow ==> |r| == LagWindow && r[LagWindow - |recent|..] == recent
    ensures 0 < |recent| < LagWindow ==> forall i :: 0 <= i < LagWindow - |recent| ==> r[i] == recent[0]
  {
    if |recent| >= LagWindow then recent
    else if recent == [] then seq(LagWindow, _ => DefaultPrice)
    else seq(LagWindow - |recent|, _ => recent[0]) + recent
  }

  /** `recent[-7:][::-1]` after padding: `lag_1` first. */
  function LagVector(recent: seq<real>): (lags: seq<real>)
    ensures |lags| == LagWindow
    ensures |recent| >= LagWindow ==> forall k :: 0 <= k < LagWindow ==> lags[k] == recent[|recent| - 1 - k]
    ensures 0 < |recent| < LagWindow ==> forall k :: 0 <= k < LagWindow ==>
              lags[k] == (if k < |recent| then recent[|recent| - 1 - k] else recent[0])
    ensures recent == [] ==> forall k :: 0 <= k < LagWindow ==> lags[k] == DefaultPrice
  {
    var p := PadRecent(recent);
    var r := seq(LagWindow, k requires 0 <= k < LagWindow => p[|p| - 1 - k]);
    assert 0 < |recent| < LagWindow ==> forall k :: 0 <= k < LagWindow ==>
              r[k] == (if k < |recent| then recent[|recent| - 1 - k] else recent[0]) by {
      if 0 < |recent| < LagWindow {
        forall k | 0 <= k < LagWindow
          ensures r[k] == (if k < |recent| then recent[|recent| - 1 - k] else recent[0])
        {
          var j := LagWindow - 1 - k;
          if k < |recent| {
            assert p[LagWindow - |recent|..][j - (LagWindow - |recent|)] == p[j];
          }
        }
      }
    }
    r
  }

  /** The label `predict_health` reports for a probability of "healthy". */
  function HealthLabel(prob: real): (verdict: string)
    ensures verdict == "healthy" <==> prob > HealthyThreshold
    ensures verdict == "healthy" || verdict == "stressed"
  {
    if prob > HealthyThreshold then "healthy" else "stressed"
  }

  // ---------------------------------------------------------------------------
  // Agreement with the training features
  // ---------------------------------------------------------------------------

  function PricesOf(s: seq<MergedRow>): (r: seq<real>)
    requires forall i :: 0 <= i < |s| ==> s[i].price.Some?
    ensures |r| == |s| && forall i :: 0 <= i < |s| ==> r[i] == s[i].price.value
  {
    seq(|s|, i requires 0 <= i < |s| => s[i].price.value)
  }

  lemma {:induction false} HistoryIgnoresLaterRows(s: seq<MergedRow>, t: seq<MergedRow>, i: nat, c: string)
    requires i <= |s|
    ensures DataPrep.History(s + t, i, c) == DataPrep.History(s, i, c)
  {
    if i > 0 {
      HistoryIgnoresLaterRows(s, t, i - 1, c);
      assert (s + t)[i - 1] == s[i - 1];
    }
  }

  lemma {:induction false} HistoryOfSingleSeries(s: seq<MergedRow>, i: nat, c: string)
    requires i <= |s|
    requires forall j :: 0 <= j < |s| ==> s[j].commodity == c
    ensures DataPrep.History(s, i, c) == seq(i, j requires 0 <= j < i => s[j].price)
  {
    if i > 0 {
      HistoryOfSingleSeries(s, i - 1, c);
    }
  }

  /** Predicting the day after a fully priced series of one commodity with
      at least seven observations: the lag vector the endpoint builds from
      the series' prices is exactly the lag features training would compute
      for that next row. */
  lemma LagVectorMatchesTraining(s: seq<MergedRow>, next: MergedRow)
    requires |s| >= LagWindow
    requires forall j :: 0 <= j < |s| ==> s[j].commodity == next.commodity && s[j].price.Some?
    requires next.price.Some?
    ensures DataPrep.Admitted(s + [next], |s|, LagWindow)
    ensures DataPrep.FeatureAt(s + [next], |s|, LagWindow).lags == LagVector(PricesOf(s))
  {
    var u := s + [next];
    var c := next.commodity;
    assert u[|s|] == next;
    HistoryIgnoresLaterRows(s, [next], |s|, c);
    HistoryOfSingleSeries(s, |s|, c);
    var h := DataPrep.History(u, |s|, c);
    assert |h| == |s|;
    forall k | 0 <= k < LagWindow
      ensures DataPrep.Lag(u, |s|, k) == Some(PricesOf(s)[|s| - 1 - k])
    {
      assert h[|h| - 1 - k] == s[|s| - 1 - k].price;
    }
  }
}
