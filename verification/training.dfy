/** Per-commodity training (`train_all_crops`): which commodities are fitted,
    on which rows, what is stored, and what the summary reports. The
    regressor itself is a parameter: `fit` is the train/test split, fit and
    held-out mean absolute error of one commodity's rows, or the message of
    the exception it raised. */
module Training {
  import opened Wrappers
  import opened Tables
  import opened Disk
  import Strings

  /** Commodities with fewer complete rows than this are skipped. */
  const MinRows: nat := 50
  const ArtifactPrefix: string := "price_rf_"
  const ArtifactSuffix: string := ".joblib"

  type Fitter = seq<FeatureRow> -> Result<real, string>

  datatype Summary = Summary(mae: real, rows: nat)

  /** The models folder afterwards, and the summary or the escaped exception. */
  datatype Training = Training(models: Folder, outcome: Result<map<string, Summary>, string>)

  /** Position of the first occurrence of `c`. */
  function Rank(cs: seq<string>, c: string): (k: nat)
    requires c in cs
    ensures k < |cs| && cs[k] == c && c !in cs[..k]
  {
    if cs[0] == c then 0
    else
      var k := Rank(cs[1..], c);
      assert cs[1..][..k] == cs[1..k + 1];
      1 + k
  }

  lemma RankInPrefix(cs: seq<string>, n: nat, c: string)
    requires n <= |cs| && c in cs[..n]
    ensures Rank(cs[..n], c) == Rank(cs, c)
  {
    var k := Rank(cs[..n], c);
    var m := Rank(cs, c);
    assert cs[..n][..k] == cs[..k];
  }

  /** `Series.unique()`: each value once, in order of first appearance. */
  function Distinct(cs: seq<string>): (r: seq<string>)
    ensures forall c :: c in r <==> c in cs
    ensures forall i, j :: 0 <= i < j < |r| ==> r[i] != r[j]
    ensures forall i, j :: 0 <= i < j < |r| ==> Rank(cs, r[i]) < Rank(cs, r[j])
    decreases |cs|
  {
    if cs == [] then []
    else
      var init := cs[..|cs| - 1];
      var last := cs[|cs| - 1];
      var r := Distinct(init);
      assert cs == init + [last];
      forall c | c in r
        ensures Rank(init, c) == Rank(cs, c)
      {
        RankInPrefix(cs, |cs| - 1, c);
      }
      if last in r then r
      else
        assert Rank(cs, last) == |cs| - 1 by {
          assert last !in cs[..|cs| - 1];
        }
        r + [last]
  }

  function CommodityColumn(rows: seq<FeatureRow>): (r: seq<string>)
    ensures |r| == |rows| && forall i :: 0 <= i < |rows| ==> r[i] == rows[i].commodity
  {
    seq(|rows|, i requires 0 <= i < |rows| => rows[i].commodity)
  }

  /** `df["commodity"].unique()`. */
  function Commodities(rows: seq<FeatureRow>): seq<string> {
    Distinct(CommodityColumn(rows))
  }

  /** The rows of commodity `c` that survive `dropna` over the lag, weather
      and price columns; lags and price are always present in a feature row,
      so only the weather can be missing. */
  function Usable(rows: seq<FeatureRow>, c: string): (r: seq<FeatureRow>)
    ensures |r| <= |rows|
    ensures forall x :: x in r <==> x in rows && x.commodity == c && x.weather.Complete()
    decreases |rows|
  {
    if rows == [] then []
    else if rows[0].commodity == c && rows[0].weather.Complete() then [rows[0]] + Usable(rows[1..], c)
    else Usable(rows[1..], c)
  }

  /** Each qualifying row is kept as often as it occurs, and no other row is. */
  lemma {:induction false} UsableCounts(rows: seq<FeatureRow>, c: string)
    ensures forall x :: multiset(Usable(rows, c))[x] ==
              if x.commodity == c && x.weather.Complete() then multiset(rows)[x] else 0
    decreases |rows|
  {
    if rows != [] {
      assert rows == [rows[0]] + rows[1..];
      UsableCounts(rows[1..], c);
    }
  }

  /** Filtering distributes over a split table, so usable rows keep their
      table order. */
  lemma {:induction false} UsableAppend(a: seq<FeatureRow>, b: seq<FeatureRow>, c: string)
    ensures Usable(a + b, c) == Usable(a, c) + Usable(b, c)
    decreases |a|
  {
    if a == [] {
      assert a + b == b;
    } else {
      assert (a + b)[1..] == a[1..] + b;
      UsableAppend(a[1..], b, c);
    }
  }

  predicate Eligible(rows: seq<FeatureRow>, c: string) {
    |Usable(rows, c)| >= MinRows
  }

  /** The artifact file name: spaces in the commodity become underscores. */
  function ArtifactName(c: string): (r: string)
    ensures Strings.MatchesStar(r, ArtifactPrefix, ArtifactSuffix)
    ensures |r| == |ArtifactPrefix| + |c| + |ArtifactSuffix|
    ensures forall i :: 0 <= i < |c| ==> r[|ArtifactPrefix| + i] == (if c[i] == ' ' then '_' else c[i])
  {
    var r := ArtifactPrefix + Strings.ReplaceChar(c, ' ', '_') + ArtifactSuffix;
    assert r[..|ArtifactPrefix|] == ArtifactPrefix;
    assert r[|r| - |ArtifactSuffix|..] == ArtifactSuffix;
    r
  }

  /** No other commodity of `crops` shares `c`'s artifact file. */
  predicate OwnsArtifact(crops: seq<string>, c: string) {
    forall d :: d in crops && ArtifactName(d) == ArtifactName(c) ==> d == c
  }

  /** No other commodity of the table shares `c`'s artifact file. */
  predicate SoleOwner(rows: seq<FeatureRow>, c: string) {
    forall x :: x in rows && ArtifactName(x.commodity) == ArtifactName(c) ==> x.commodity == c
  }

  /** `msg` is the error of the first eligible commodity of `crops` whose fit raises. */
  ghost predicate FirstFailure(crops: seq<string>, rows: seq<FeatureRow>, fit: Fitter, msg: string) {
    exists k :: 0 <= k < |crops| && Eligible(rows, crops[k]) && fit(Usable(rows, crops[k])) == Failure(msg)
                && forall j :: 0 <= j < k && Eligible(rows, crops[j]) ==> fit(Usable(rows, crops[j])).Success?
  }

  lemma FirstFailureLifts(crops: seq<string>, rows: seq<FeatureRow>, fit: Fitter, msg: string)
    requires crops != [] && FirstFailure(crops[1..], rows, fit, msg)
    requires Eligible(rows, crops[0]) ==> fit(Usable(rows, crops[0])).Success?
    ensures FirstFailure(crops, rows, fit, msg)
  {
    var k :| 0 <= k < |crops[1..]| && Eligible(rows, crops[1..][k]) && fit(Usable(rows, crops[1..][k])) == Failure(msg)
             && forall j :: 0 <= j < k && Eligible(rows, crops[1..][j]) ==> fit(Usable(rows, crops[1..][j])).Success?;
    assert crops[k + 1] == crops[1..][k];
    forall j | 0 <= j < k + 1 && Eligible(rows, crops[j])
      ensures fit(Usable(rows, crops[j])).Success?
    {
      if j > 0 {
        assert crops[j] == crops[1..][j - 1];
      }
    }
  }

  /** The loop over `crops`: skip, fit and store, or stop at the first fit
      that raises (the files already written stay written). */
  function TrainEach(crops: seq<string>, rows: seq<FeatureRow>, fit: Fitter, models: Folder): (t: Training)
    ensures t.outcome.Success? ==>
              t.outcome.value.Keys == set c | c in crops && Eligible(rows, c)
    ensures t.outcome.Success? ==> forall c :: c in t.outcome.value ==>
              fit(Usable(rows, c)).Success? &&
              t.outcome.value[c] == Summary(fit(Usable(rows, c)).value, |Usable(rows, c)|)
    ensures t.outcome.Failure? ==> FirstFailure(crops, rows, fit, t.outcome.error)
    decreases |crops|
  {
    if crops == [] then Training(models, Success(map[]))
    else
      var c := crops[0];
      var sub := Usable(rows, c);
      if |sub| < MinRows then
        var t := TrainEach(crops[1..], rows, fit, models);
        if t.outcome.Failure? then
          FirstFailureLifts(crops, rows, fit, t.outcome.error);
          t
        else t
      else
        match fit(sub)
        case Failure(msg) => Training(models, Failure(msg))
        case Success(mae) =>
          var stored := Write(models, ArtifactName(c), Artifact(c, |sub|, mae));
          var t := TrainEach(crops[1..], rows, fit, stored);
          match t.outcome
          case Failure(msg) =>
            FirstFailureLifts(crops, rows, fit, msg);
            t
          case Success(m) => Training(t.models, Success(m[c := Summary(mae, |sub|)]))
  }

  /** Files no commodity of `crops` is stored under are left as they were. */
  lemma {:induction false} TrainEachKeepsOthers(crops: seq<string>, rows: seq<FeatureRow>, fit: Fitter,
                                                models: Folder, n: string)
    requires forall d :: d in crops ==> ArtifactName(d) != n
    ensures Lookup(TrainEach(crops, rows, fit, models).models, n) == Lookup(models, n)
    decreases |crops|
  {
    if crops != [] {
      var c := crops[0];
      var sub := Usable(rows, c);
      assert forall d :: d in crops[1..] ==> d in crops;
      if |sub| < MinRows {
        TrainEachKeepsOthers(crops[1..], rows, fit, models, n);
      } else if fit(sub).Success? {
        var stored := Write(models, ArtifactName(c), Artifact(c, |sub|, fit(sub).value));
        TrainEachKeepsOthers(crops[1..], rows, fit, stored, n);
      }
    }
  }

  /** After a run that raised nothing, every eligible commodity that owns its
      artifact file finds there the model fitted on its usable rows. */
  lemma {:induction false} TrainEachStores(crops: seq<string>, rows: seq<FeatureRow>, fit: Fitter,
                                           models: Folder, d: string)
    requires TrainEach(crops, rows, fit, models).outcome.Success?
    requires d in crops && Eligible(rows, d) && OwnsArtifact(crops, d)
    ensures Lookup(TrainEach(crops, rows, fit, models).models, ArtifactName(d)) ==
              Some(Artifact(d, |Usable(rows, d)|, fit(Usable(rows, d)).value))
    decreases |crops|
  {
    var c := crops[0];
    var sub := Usable(rows, c);
    assert forall e :: e in crops[1..] ==> e in crops;
    if |sub| < MinRows {
      assert d in crops[1..];
      TrainEachStores(crops[1..], rows, fit, models, d);
    } else {
      var stored := Write(models, ArtifactName(c), Artifact(c, |sub|, fit(sub).value));
      if d in crops[1..] {
        TrainEachStores(crops[1..], rows, fit, stored, d);
      } else {
        TrainEachKeepsOthers(crops[1..], rows, fit, stored, ArtifactName(d));
      }
    }
  }

  /** `train_all_crops` on the model-ready table. */
  function TrainAllCrops(rows: seq<FeatureRow>, fit: Fitter, models: Folder): (t: Training)
    ensures t.outcome.Success? ==> forall c :: c in t.outcome.value <==> Eligible(rows, c)
    ensures t.outcome.Success? ==> forall c :: c in t.outcome.value ==>
              fit(Usable(rows, c)).Success? &&
              t.outcome.value[c] == Summary(fit(Usable(rows, c)).value, |Usable(rows, c)|)
    ensures t.outcome.Failure? ==> exists c :: Eligible(rows, c) && fit(Usable(rows, c)) == Failure(t.outcome.error)
    ensures t.outcome.Success? ==> forall c :: Eligible(rows, c) && SoleOwner(rows, c) ==>
              Lookup(t.models, ArtifactName(c)) == Some(Artifact(c, |Usable(rows, c)|, fit(Usable(rows, c)).value))
    ensures forall n :: (forall x :: x in rows ==> ArtifactName(x.commodity) != n) ==>
              Lookup(t.models, n) == Lookup(models, n)
  {
    var crops := Commodities(rows);
    forall d | d in crops
      ensures exists x :: x in rows && x.commodity == d
    {
      var i :| 0 <= i < |rows| && CommodityColumn(rows)[i] == d;
      assert rows[i] in rows;
    }
    forall c | Eligible(rows, c)
      ensures c in crops
    {
      var x := Usable(rows, c)[0];
      assert x in Usable(rows, c);
      var i :| 0 <= i < |rows| && rows[i] == x;
      assert CommodityColumn(rows)[i] == c;
    }
    var t := TrainEach(crops, rows, fit, models);
    forall c | Eligible(rows, c) && SoleOwner(rows, c) && t.outcome.Success?
      ensures Lookup(t.models, ArtifactName(c)) == Some(Artifact(c, |Usable(rows, c)|, fit(Usable(rows, c)).value))
    {
      TrainEachStores(crops, rows, fit, models, c);
    }
    forall n | forall x :: x in rows ==> ArtifactName(x.commodity) != n
      ensures Lookup(t.models, n) == Lookup(models, n)
    {
      TrainEachKeepsOthers(crops, rows, fit, models, n);
    }
    t
  }

  /** A commodity with fewer than `MinRows` complete rows is never fitted and
      never written, whatever the rest of the table holds. */
  lemma {:induction false} SkippedLeavesNoArtifact(crops: seq<string>, rows: seq<FeatureRow>, fit: Fitter,
                                                   models: Folder, c: string)
    requires forall d :: d in crops && ArtifactName(d) == ArtifactName(c) ==> !Eligible(rows, d)
    ensures Lookup(TrainEach(crops, rows, fit, models).models, ArtifactName(c)) == Lookup(models, ArtifactName(c))
    decreases |crops|
  {
    if crops != [] {
      var d := crops[0];
      var sub := Usable(rows, d);
      if |sub| < MinRows {
        SkippedLeavesNoArtifact(crops[1..], rows, fit, models, c);
      } else if fit(sub).Success? {
        var stored := Write(models, ArtifactName(d), Artifact(d, |sub|, fit(sub).value));
        SkippedLeavesNoArtifact(crops[1..], rows, fit, stored, c);
      }
    }
  }

  /** Spaces are the only characters renamed, so commodities without
      underscores never share an artifact file. */
  lemma ArtifactNameInjective(c: string, d: string)
    requires '_' !in c && '_' !in d
    requires ArtifactName(c) == ArtifactName(d)
    ensures c == d
  {
    assert |c| == |d|;
    forall i | 0 <= i < |c|
      ensures c[i] == d[i]
    {
      assert ArtifactName(c)[|ArtifactPrefix| + i] == ArtifactName(d)[|ArtifactPrefix| + i];
      assert c[i] != '_' && d[i] != '_';
    }
  }
}
