/** Noise bands over repeated projections and comparisons against them, of evals/metrics.mjs. */
module NoiseBand {
  import opened Collections
  import opened Rounding

  /** A report, as far as a band reads it: the comparable number of each indicator, if it has one. */
  type Report = map<string, Option<real>>

  datatype Band = Band(band: Option<real>, median: Option<real>, n: nat)

  function RealLe(x: real, y: real): bool { x <= y }

  /** The measured values of one indicator, in report order. */
  function Readings(reports: seq<Report>, name: string): seq<real>
  {
    if reports == [] then [] else
    Readings(reports[..|reports| - 1], name) + ReadingOf(reports[|reports| - 1], name)
  }

  function ReadingOf(report: Report, name: string): seq<real>
  {
    if name in report && report[name].Some? then [report[name].value] else []
  }

  function Names(reports: seq<Report>): set<string>
  {
    set r, name | r in reports && name in r :: name
  }

  /** The unrounded median of sorted values. */
  function Median(values: seq<real>): real
    requires values != []
  {
    var n := |values|;
    if n % 2 == 1 then values[(n - 1) / 2] else (values[n / 2 - 1] + values[n / 2]) / 2.0
  }

  function BandOf(readings: seq<real>): Band
  {
    var values := Sort(RealLe, readings);
    var n := |values|;
    if n == 0 then Band(None, None, 0)
    else if n == 1 then Band(None, Some(values[0]), 1)
    else Band(Some(Round4((values[n - 1] - values[0]) / 2.0)), Some(Round4(Median(values))), n)
  }

  /** The band of every indicator any report names. */
  function BandsOf(reports: seq<Report>): map<string, Band>
  {
    map name | name in Names(reports) :: BandOf(Readings(reports, name))
  }

  method CollectReadings(reports: seq<Report>, name: string) returns (values: seq<real>)
    ensures values == Readings(reports, name)
  {
    values := [];
    for i := 0 to |reports|
      invariant values == Readings(reports[..i], name)
    {
      assert reports[..i + 1][..i] == reports[..i];
      if name in reports[i] && reports[i][name].Some? {
        values := values + [reports[i][name].value];
      }
    }
    assert reports[..|reports|] == reports;
  }

  method BandOfIndicator(reports: seq<Report>, name: string) returns (b: Band)
    ensures b == BandOf(Readings(reports, name))
  {
    var readings := CollectReadings(reports, name);
    var values := Sort(RealLe, readings);
    var n := |values|;
    if n < 2 {
      return Band(None, if n == 1 then Some(values[0]) else None, n);
    }
    b := Band(Some(Round4((values[n - 1] - values[0]) / 2.0)), Some(Round4(Median(values))), n);
  }

  method NoiseBandOf(reports: seq<Report>) returns (result: map<string, Band>)
    ensures result == BandsOf(reports)
  {
    result := map[];
    var names := Names(reports);
    while names != {}
      invariant names <= Names(reports) && result.Keys == Names(reports) - names
      invariant forall name | name in result :: result[name] == BandsOf(reports)[name]
      decreases names
    {
      var name :| name in names;
      names := names - {name};
      var band := BandOfIndicator(reports, name);
      result := result[name := band];
    }
  }

  // ----- what a band says

  lemma RealLeIsPreorder()
    ensures TotalPreorder(RealLe)
  {
  }

  lemma SortedReals(readings: seq<real>)
    ensures Sorted(RealLe, Sort(RealLe, readings)) && multiset(Sort(RealLe, readings)) == multiset(readings)
    ensures forall x :: x in Sort(RealLe, readings) <==> x in readings
  {
    RealLeIsPreorder();
    SortSorted(RealLe, readings);
    SortMultiset(RealLe, readings);
  }

  lemma SortedBounds(values: seq<real>, x: real)
    requires Sorted(RealLe, values) && x in values
    ensures values[0] <= x <= values[|values| - 1]
  {
    var i :| 0 <= i < |values| && values[i] == x;
    assert i == 0 || RealLe(values[0], values[i]);
    assert i == |values| - 1 || RealLe(values[i], values[|values| - 1]);
  }

  lemma MedianBetween(values: seq<real>)
    requires Sorted(RealLe, values) && values != []
    ensures values[0] <= Median(values) <= values[|values| - 1]
  {
    var n := |values|;
    SortedBounds(values, values[(n - 1) / 2]);
    if n % 2 == 0 {
      SortedBounds(values, values[n / 2 - 1]);
      SortedBounds(values, values[n / 2]);
    }
  }

  /** The median is no less than the lower half of the readings and no more than the upper half. */
  lemma MedianSplits(values: seq<real>, k: nat)
    requires Sorted(RealLe, values) && k < |values|
    ensures 2 * k < |values| ==> values[k] <= Median(values)
    ensures 2 * k + 1 >= |values| ==> Median(values) <= values[k]
  {
    var n := |values|;
    var low, high := (n - 1) / 2, n / 2;
    assert low == high || RealLe(values[low], values[high]);
    assert k >= low || RealLe(values[k], values[low]);
    assert k <= high || RealLe(values[high], values[k]);
  }

  /** Half a range, rounded: the range is twice the band up to one unit of rounding. */
  lemma BandIsHalfRange(readings: seq<real>)
    requires |readings| >= 2
    ensures var values := Sort(RealLe, readings);
      && BandOf(readings).band.Some? && BandOf(readings).n == |readings|
      && 2.0 * BandOf(readings).band.value - 0.0001 <= values[|values| - 1] - values[0] <= 2.0 * BandOf(readings).band.value + 0.0001
  {
    var values := Sort(RealLe, readings);
    Round4Near((values[|values| - 1] - values[0]) / 2.0);
  }

  /** The two readings whose distance a band measures. */
  ghost predicate AreExtremes(readings: seq<real>, lo: real, hi: real)
  {
    lo in readings && hi in readings && forall x | x in readings :: lo <= x <= hi
  }

  /**
   * A band covers the spread of its readings: any two differ by at most twice the band and one
   * unit of rounding, the extremes differ by no less than that, and the unrounded median lies
   * between them.
   */
  lemma BandCoversReadings(readings: seq<real>, x: real, y: real) returns (lo: real, hi: real)
    requires |readings| >= 2 && x in readings && y in readings
    ensures BandOf(readings).band.Some? && BandOf(readings).n == |readings|
    ensures x - y <= 2.0 * BandOf(readings).band.value + 0.0001
    ensures AreExtremes(readings, lo, hi) && 2.0 * BandOf(readings).band.value - 0.0001 <= hi - lo
    ensures lo <= Median(Sort(RealLe, readings)) <= hi
  {
    var values := Sort(RealLe, readings);
    lo, hi := values[0], values[|values| - 1];
    BandIsHalfRange(readings);
    SortedReals(readings);
    MedianBetween(values);
    assert lo in values && hi in values;
    forall z | z in readings ensures lo <= z <= hi {
      SortedBounds(values, z);
    }
  }

  /** One reading has itself for a median and no band; from two on the reported median is theirs, up to half a unit. */
  lemma ReportedMedian(readings: seq<real>)
    ensures BandOf(readings).n == |readings|
    ensures BandOf(readings).band.Some? <==> |readings| >= 2
    ensures BandOf(readings).median.Some? <==> |readings| >= 1
    ensures |readings| == 1 ==> BandOf(readings).median == Some(readings[0])
    ensures |readings| >= 2 ==>
      var m := Median(Sort(RealLe, readings));
      BandOf(readings).median.Some? && m - 0.00005 < BandOf(readings).median.value <= m + 0.00005
  {
    SortedReals(readings);
    if |readings| == 1 {
      assert Sort(RealLe, readings)[0] in readings;
    }
    if |readings| >= 2 {
      Round4Near(Median(Sort(RealLe, readings)));
    }
  }

  /** An indicator has a band exactly when some report names it. */
  lemma BandsExact(reports: seq<Report>, name: string, x: real)
    ensures name in BandsOf(reports) <==> exists r :: r in reports && name in r
    ensures x in Readings(reports, name) <==> exists r :: r in reports && name in r && r[name] == Some(x)
  {
    ReadingsExact(reports, name, x);
  }

  lemma {:induction false} ReadingsExact(reports: seq<Report>, name: string, x: real)
    ensures x in Readings(reports, name) <==> exists r :: r in reports && name in r && r[name] == Some(x)
  {
    if reports != [] {
      var n := |reports| - 1;
      ReadingsExact(reports[..n], name, x);
      assert forall r :: r in reports <==> r in reports[..n] || r == reports[n];
    }
  }

  // ----- report order

  function AddReading(name: string): (multiset<real>, Report) -> multiset<real>
  {
    (m: multiset<real>, r: Report) => m + multiset(ReadingOf(r, name))
  }

  lemma {:induction false} ReadingsFold(reports: seq<Report>, name: string)
    ensures multiset(Readings(reports, name)) == Fold(AddReading(name), multiset{}, reports)
  {
    if reports != [] {
      ReadingsFold(reports[..|reports| - 1], name);
    }
  }

  lemma ReadingsPermuted(reports: seq<Report>, permuted: seq<Report>, name: string)
    requires multiset(reports) == multiset(permuted)
    ensures multiset(Readings(reports, name)) == multiset(Readings(permuted, name))
  {
    var f := AddReading(name);
    forall m, r, s ensures f(f(m, r), s) == f(f(m, s), r) {}
    FoldPermuted(f, multiset{}, reports, permuted);
    ReadingsFold(reports, name);
    ReadingsFold(permuted, name);
  }

  lemma SameBand(readings: seq<real>, permuted: seq<real>)
    requires multiset(readings) == multiset(permuted)
    ensures BandOf(readings) == BandOf(permuted)
  {
    RealLeIsPreorder();
    SortPermuted(RealLe, readings, permuted);
  }

  /** Bands do not depend on the order of the reports. */
  lemma BandsIgnoreOrder(reports: seq<Report>, permuted: seq<Report>)
    requires multiset(reports) == multiset(permuted)
    ensures BandsOf(reports) == BandsOf(permuted)
  {
    MembersOfPermuted(reports, permuted);
    assert Names(reports) == Names(permuted);
    forall name | name in Names(reports) ensures BandsOf(reports)[name] == BandsOf(permuted)[name] {
      ReadingsPermuted(reports, permuted, name);
      SameBand(Readings(reports, name), Readings(permuted, name));
    }
  }

  // ----- comparisons

  /** What an indicator reports: a number, something else (a grouped indicator's map), or nothing. */
  datatype Reported = Nothing | Numeric(number: real) | Structured(json: string)

  datatype Indicator = Indicator(value: Reported, count: Option<real>, direction: Option<string>)

  datatype Side = Side(value: Reported, count: real)

  datatype Comparison = Comparison(
    before: Side, after: Side, direction: string, delta: Option<real>, comparable: bool, band: Option<Option<real>>, significant: Option<bool>)

  function SideOf(i: Option<Indicator>): Side
  {
    if i.None? then Side(Nothing, 0.0) else Side(i.value.value, if i.value.count.Some? then i.value.count.value else 0.0)
  }

  function DirectionOf(before: Option<Indicator>, after: Option<Indicator>): string
  {
    if after.Some? && after.value.direction.Some? then after.value.direction.value
    else if before.Some? && before.value.direction.Some? then before.value.direction.value
    else "informative"
  }

  /** Comparing one indicator; `band` is absent without a band report, and empty when that has none. */
  function Compare(before: Option<Indicator>, after: Option<Indicator>, band: Option<Option<real>>): Comparison
  {
    var x, y := SideOf(before), SideOf(after);
    var comparable := x.value.Numeric? && y.value.Numeric?;
    var delta := if comparable then Some(Round4(y.value.number - x.value.number)) else None;
    Comparison(x, y, DirectionOf(before, after), delta, comparable, band,
               if band.None? || band.value.None? || !comparable then None
               else Some((if delta.value >= 0.0 then delta.value else -delta.value) > band.value.value))
  }

  predicate DirectionsClash(before: Option<Indicator>, after: Option<Indicator>)
  {
    && before.Some? && after.Some? && before.value.direction.Some? && after.value.direction.Some?
    && before.value.direction != after.value.direction
  }

  /** A comparison keeps both sides: each value as reported, and its count, zero when there is none. */
  lemma CompareKeepsSides(before: Option<Indicator>, after: Option<Indicator>, band: Option<Option<real>>)
    ensures var c := Compare(before, after, band);
      && (before.Some? ==> c.before.value == before.value.value && (before.value.count.Some? ==> c.before.count == before.value.count.value))
      && (after.Some? ==> c.after.value == after.value.value && (after.value.count.Some? ==> c.after.count == after.value.count.value))
      && (before.None? ==> c.before == Side(Nothing, 0.0)) && (after.None? ==> c.after == Side(Nothing, 0.0))
      && (before.Some? && before.value.count.None? ==> c.before.count == 0.0) && (after.Some? && after.value.count.None? ==> c.after.count == 0.0)
      && c.band == band
  {
  }

  /** The delta is what the later side adds to the earlier one, up to half a unit; without two numbers there is none. */
  lemma DeltaIsGrowth(before: Option<Indicator>, after: Option<Indicator>, band: Option<Option<real>>)
    ensures var c := Compare(before, after, band);
      && (c.comparable <==> before.Some? && after.Some? && before.value.value.Numeric? && after.value.value.Numeric?)
      && (c.comparable <==> c.delta.Some?)
      && (c.comparable ==>
          var growth := after.value.value.number - before.value.value.number;
          growth - 0.00005 < c.delta.value <= growth + 0.00005)
  {
    if before.Some? && after.Some? && before.value.value.Numeric? && after.value.value.Numeric? {
      Round4Near(after.value.value.number - before.value.value.number);
    }
  }

  /** Significance is judged exactly when both sides are numbers and the indicator has a band. */
  lemma SignificanceExact(before: Option<Indicator>, after: Option<Indicator>, band: Option<Option<real>>)
    ensures Compare(before, after, band).significant.Some?
      <==> Compare(before, after, band).comparable && band.Some? && band.value.Some?
  {
  }

  /** The direction is the later side's, else the earlier side's, else none in particular. */
  lemma DirectionExact(before: Indicator, after: Indicator, band: Option<Option<real>>)
    ensures after.direction.Some? ==> Compare(Some(before), Some(after), band).direction == after.direction.value
    ensures after.direction.None? && before.direction.Some? ==> Compare(Some(before), Some(after), band).direction == before.direction.value
    ensures Compare(None, None, band).direction == "informative"
  {
  }

  /** A comparison and its reverse swap their sides, and agree on the direction unless the sides state different ones. */
  lemma CompareSwaps(before: Option<Indicator>, after: Option<Indicator>, band: Option<Option<real>>)
    ensures Compare(before, after, band).before == Compare(after, before, band).after
    ensures Compare(before, after, band).comparable == Compare(after, before, band).comparable == Compare(before, after, band).delta.Some?
    ensures Compare(before, after, band).direction == Compare(after, before, band).direction <==> !DirectionsClash(before, after)
  {
  }

  /** Their deltas cancel, or exceed zero by one unit exactly when the difference is a rounding tie. */
  lemma CompareReversed(before: Indicator, after: Indicator, band: Option<Option<real>>)
    requires before.value.Numeric? && after.value.Numeric?
    ensures var c, d := Compare(Some(before), Some(after), band), Compare(Some(after), Some(before), band);
      && c.delta.Some? && d.delta.Some?
      && c.delta.value + d.delta.value == if IsTie((after.value.number - before.value.number) * 10000.0) then 0.0001 else 0.0
  {
    Round4Negated(after.value.number - before.value.number);
    assert before.value.number - after.value.number == -(after.value.number - before.value.number);
  }

  function Distance(x: real, y: real): real { if x >= y then x - y else y - x }

  /**
   * Significance is exact up to half a unit of rounding: a difference called significant exceeds
   * the band less that, and one called insignificant is within the band and that.
   */
  lemma SignificantIsLarge(before: Indicator, after: Indicator, band: real)
    requires before.value.Numeric? && after.value.Numeric?
    ensures var c := Compare(Some(before), Some(after), Some(Some(band)));
      && c.significant.Some?
      && (c.significant.value ==> Distance(before.value.number, after.value.number) > band - 0.00005)
      && (!c.significant.value ==> Distance(before.value.number, after.value.number) <= band + 0.00005)
  {
    Round4Near(after.value.number - before.value.number);
  }
}
