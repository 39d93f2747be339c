/** The data folders the pipeline reads and writes. A folder is its listing
    (the order a directory glob yields entries in); a file holds the table it
    was written with, so CSV text and its parsing are not modelled. */
module Disk {
  import opened Wrappers
  import opened Tables
  import PriceIngest
  import Strings

  datatype File =
    | RawPrices(table: PriceIngest.RawTable)        // a market CSV as `pd.read_csv` reads it
    | Prices(prices: seq<PriceRow>)                 // the cleaned {date, commodity, price} table
    | WeatherTable(days: seq<WeatherRow>)         // {date, temp_max, temp_min, precip_mm, wind_speed}
    | ModelReady(features: seq<FeatureRow>)           // the lag-feature table
    | Artifact(commodity: string, trainedOn: nat, mae: real)  // a pickled per-commodity regressor
    | StatusJson(lastRun: Stamp, status: string)    // the retrain status document

  datatype Entry = Entry(name: string, file: File)

  type Folder = seq<Entry>

  predicate UniqueNames(f: Folder) {
    forall i, j :: 0 <= i < j < |f| ==> f[i].name != f[j].name
  }

  predicate Exists(f: Folder, name: string) {
    exists i :: 0 <= i < |f| && f[i].name == name
  }

  /** The file called `name`, if there is one. */
  function Lookup(f: Folder, name: string): (r: Option<File>)
    ensures r.Some? <==> Exists(f, name)
    ensures r.Some? ==> Entry(name, r.value) in f
    decreases |f|
  {
    if f == [] then None
    else if f[0].name == name then Some(f[0].file)
    else
      var r := Lookup(f[1..], name);
      assert r.Some? ==> f[1..] <= f[1..] && Entry(name, r.value) in f;
      assert Exists(f[1..], name) ==> Exists(f, name) by {
        if Exists(f[1..], name) {
          var i :| 0 <= i < |f[1..]| && f[1..][i].name == name;
          assert f[i + 1].name == name;
        }
      }
      r
  }

  /** Writing a file: the file called `name` is replaced in place, or the new
      file is listed last. */
  function Write(f: Folder, name: string, file: File): (r: Folder)
    ensures Lookup(r, name) == Some(file)
    ensures forall n :: n != name ==> Lookup(r, n) == Lookup(f, n)
    ensures |r| == if Exists(f, name) then |f| else |f| + 1
    decreases |f|
  {
    if f == [] then [Entry(name, file)]
    else if f[0].name == name then [Entry(name, file)] + f[1..]
    else
      ExistsTail(f, name);
      [f[0]] + Write(f[1..], name, file)
  }

  lemma ExistsTail(f: Folder, name: string)
    requires f != [] && f[0].name != name
    ensures Exists(f, name) <==> Exists(f[1..], name)
  {
    if Exists(f, name) {
      var i :| 0 <= i < |f| && f[i].name == name;
      assert f[1..][i - 1].name == name;
    }
    if Exists(f[1..], name) {
      var i :| 0 <= i < |f[1..]| && f[1..][i].name == name;
      assert f[i + 1].name == name;
    }
  }

  /** Writing never lists two files under one name. */
  lemma {:induction false} WriteKeepsNamesUnique(f: Folder, name: string, file: File)
    requires UniqueNames(f)
    ensures UniqueNames(Write(f, name, file))
    decreases |f|
  {
    if f == [] {
    } else if f[0].name == name {
      assert Write(f, name, file) == [Entry(name, file)] + f[1..];
      UniqueCons(Entry(name, file), f[1..]);
    } else {
      var rest := Write(f[1..], name, file);
      WriteKeepsNamesUnique(f[1..], name, file);
      forall j | 0 <= j < |rest|
        ensures rest[j].name != f[0].name
      {
        HeadNameNotInTail(f, name, file, j);
      }
      UniqueCons(f[0], rest);
      assert Write(f, name, file) == [f[0]] + rest;
    }
  }

  lemma UniqueCons(e: Entry, rest: Folder)
    requires UniqueNames(rest)
    requires forall j :: 0 <= j < |rest| ==> rest[j].name != e.name
    ensures UniqueNames([e] + rest)
  {
    var r := [e] + rest;
    forall i, j | 0 <= i < j < |r|
      ensures r[i].name != r[j].name
    {
      assert r[j] == rest[j - 1];
      if i > 0 {
        assert r[i] == rest[i - 1];
      }
    }
  }

  lemma HeadNameNotInTail(f: Folder, name: string, file: File, j: nat)
    requires UniqueNames(f) && f != [] && f[0].name != name
    requires j < |Write(f[1..], name, file)|
    ensures Write(f[1..], name, file)[j].name != f[0].name
  {
    var rest := Write(f[1..], name, file);
    var n := rest[j].name;
    assert Exists(rest, n);
    if n != name {
      assert Lookup(f[1..], n).Some?;
      var k :| 0 <= k < |f[1..]| && f[1..][k].name == n;
      assert f[k + 1].name == n;
    }
  }

  /** The entries a `prefix*suffix` glob yields, in listing order. */
  function Glob(f: Folder, prefix: string, suffix: string): (r: Folder)
    ensures |r| <= |f|
    ensures forall e :: e in r <==> e in f && Strings.MatchesStar(e.name, prefix, suffix)
    decreases |f|
  {
    if f == [] then []
    else if Strings.MatchesStar(f[0].name, prefix, suffix) then [f[0]] + Glob(f[1..], prefix, suffix)
    else Glob(f[1..], prefix, suffix)
  }

  /** Each matching entry is yielded as often as it is listed, and no other is. */
  lemma {:induction false} GlobCounts(f: Folder, prefix: string, suffix: string)
    ensures forall e :: multiset(Glob(f, prefix, suffix))[e] ==
              if Strings.MatchesStar(e.name, prefix, suffix) then multiset(f)[e] else 0
    decreases |f|
  {
    if f != [] {
      assert f == [f[0]] + f[1..];
      GlobCounts(f[1..], prefix, suffix);
    }
  }

  /** Globbing distributes over a split listing, so matches keep their
      listing order and none is repeated or dropped. */
  lemma {:induction false} GlobAppend(a: Folder, b: Folder, prefix: string, suffix: string)
    ensures Glob(a + b, prefix, suffix) == Glob(a, prefix, suffix) + Glob(b, prefix, suffix)
    decreases |a|
  {
    if a == [] {
      assert a + b == b;
    } else {
      assert (a + b)[1..] == a[1..] + b;
      GlobAppend(a[1..], b, prefix, suffix);
    }
  }

  /** A one-entry listing globs to itself exactly when its name matches. */
  lemma GlobSingle(e: Entry, prefix: string, suffix: string)
    ensures Glob([e], prefix, suffix) == if Strings.MatchesStar(e.name, prefix, suffix) then [e] else []
  {
  }
}
