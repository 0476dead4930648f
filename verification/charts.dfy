/** The data behind the three daily charts: each entry's cost and distance
    spread over the days since the previous entry, summed onto a daily
    grid, and zeros back-filled from the next day that has data.

    Drawing and saving the figures are not modelled.
 */
module Charts {
  import opened Values
  import opened Entries
  import opened Tally

  // ---------------------------------------------------------------------------
  // Days since the previous entry and normalisation

  /** The gap of row `i`: whole days since row `i - 1`, or 7 when there is
      no previous row or either date is NaT (`diff().dt.days.fillna(7)`). */
  function Gap(rows: seq<Entry>, i: int): int
    requires 0 <= i < |rows|
  {
    if i == 0 || !Dated(rows[i - 1]) || !Dated(rows[i]) then 7
    else (Time(rows[i]) - Time(rows[i - 1])) / SecondsPerDay
  }

  /** `DaysSinceLastEntry`: the number of whole days between consecutive
      rows, 7 for the first row and next to a NaT. */
  function DaysSinceLastEntry(rows: seq<Entry>): (r: seq<int>)
    ensures |r| == |rows|
    ensures |rows| > 0 ==> r[0] == 7
    ensures forall i :: 0 < i < |rows| && Dated(rows[i - 1]) && Dated(rows[i]) ==>
              r[i] * SecondsPerDay <= Time(rows[i]) - Time(rows[i - 1]) < (r[i] + 1) * SecondsPerDay
    ensures forall i :: 0 < i < |rows| && !(Dated(rows[i - 1]) && Dated(rows[i])) ==> r[i] == 7
  {
    seq(|rows|, i requires 0 <= i < |rows| => Gap(rows, i))
  }

  /** On a date-sorted table no gap is negative. */
  lemma SortedGapsNonNegative(rows: seq<Entry>)
    requires SortedByDate(rows)
    ensures forall i :: 0 <= i < |rows| ==> DaysSinceLastEntry(rows)[i] >= 0
  {
    forall i | 0 < i < |rows| && Dated(rows[i - 1]) && Dated(rows[i])
      ensures Time(rows[i - 1]) <= Time(rows[i])
    {
      assert DateLe(rows[i - 1], rows[i]);
    }
  }

  /** One row of the prepared chart table: its day number (None for NaT),
      the normalised distance and cost, and the litres per 100 km. */
  datatype Point = Point(day: Option<int>, distance: Option<real>, cost: Option<real>, kilometrage: Option<real>)

  /** The three resampled columns. */
  datatype Series = NormalisedDistance | NormalisedCost | DailyKilometrage

  function Value(p: Point, s: Series): Option<real>
  {
    match s
    case NormalisedDistance => p.distance
    case NormalisedCost => p.cost
    case DailyKilometrage => p.kilometrage
  }

  /** `NormalisedCost` and `NormalisedDistance` of one row: its cost and
      distance divided by its gap in days. */
  function NormaliseRow(e: Entry, gap: int): (p: Point)
    ensures p.day == (if Dated(e) then Some(Day(Time(e))) else None)
    ensures p.kilometrage == e.kilometrage
    ensures p.cost.Some? <==> e.totalCost.Some? && gap != 0
    ensures p.cost.Some? ==> p.cost.value * (gap as real) == e.totalCost.value
    ensures p.distance.Some? <==> e.distance.Some? && gap != 0
    ensures p.distance.Some? ==> p.distance.value * (gap as real) == e.distance.value
  {
    Point(if Dated(e) then Some(Day(Time(e))) else None,
          Div(e.distance, Some(gap as real)),
          Div(e.totalCost, Some(gap as real)),
          e.kilometrage)
  }

  /** Every row normalised by its own gap (see `NormalisedRowGap`). */
  function Normalise(rows: seq<Entry>): (r: seq<Point>)
    ensures |r| == |rows|
    ensures forall i :: 0 <= i < |rows| ==> r[i] == NormaliseRow(rows[i], DaysSinceLastEntry(rows)[i])
  {
    var gaps := DaysSinceLastEntry(rows);
    seq(|rows|, i requires 0 <= i < |rows| => NormaliseRow(rows[i], gaps[i]))
  }

  /** What one normalised row holds: its day and kilometrage; for the
      first row, and a row next to a NaT, its cost and distance spread over
      7 days; for a row on the same day as the row before it, no
      normalised cost or distance (division by a zero gap). */
  lemma NormalisedRowGap(rows: seq<Entry>, i: int)
    requires 0 <= i < |rows|
    ensures var p := Normalise(rows)[i];
            && p.day == (if Dated(rows[i]) then Some(Day(Time(rows[i]))) else None)
            && p.kilometrage == rows[i].kilometrage
    ensures var p := Normalise(rows)[i];
            (i == 0 || !Dated(rows[i - 1]) || !Dated(rows[i])) ==>
              && (p.cost.Some? <==> rows[i].totalCost.Some?)
              && (p.cost.Some? ==> p.cost.value * 7.0 == rows[i].totalCost.value)
              && (p.distance.Some? <==> rows[i].distance.Some?)
              && (p.distance.Some? ==> p.distance.value * 7.0 == rows[i].distance.value)
    ensures var p := Normalise(rows)[i];
            (0 < i && Dated(rows[i - 1]) && Dated(rows[i])
              && 0 <= Time(rows[i]) - Time(rows[i - 1]) < SecondsPerDay) ==>
              p.cost.None? && p.distance.None?
  {
    var g := DaysSinceLastEntry(rows)[i];
    assert Normalise(rows)[i] == NormaliseRow(rows[i], g);
    if i == 0 || !Dated(rows[i - 1]) || !Dated(rows[i]) {
      assert g == 7;
      assert Normalise(rows)[i] == NormaliseRow(rows[i], 7);
    } else if 0 <= Time(rows[i]) - Time(rows[i - 1]) < SecondsPerDay {
      assert g == 0;
      assert Normalise(rows)[i] == NormaliseRow(rows[i], 0);
    }
  }

  /** The chart table: a date-sorted copy of the rows, normalised. */
  function Prepare(rows: seq<Entry>): (r: seq<Point>)
    ensures |r| == |rows|
  {
    Normalise(SortByDate(rows))
  }

  // ---------------------------------------------------------------------------
  // Daily resampling

  /** The dated points of one series, tagged with their day; NaT rows fall
      outside every daily bucket. */
  function DayTagged(ps: seq<Point>, s: Series): seq<(int, real)>
  {
    if |ps| == 0 then []
    else (if ps[0].day.Some? then [(ps[0].day.value, OrZero(Value(ps[0], s)))] else []) + DayTagged(ps[1..], s)
  }

  /** Every tag is the day of some point. */
  lemma {:induction false} TaggedDaysComeFromPoints(ps: seq<Point>, s: Series)
    ensures forall k :: 0 <= k < |DayTagged(ps, s)| ==> exists i :: 0 <= i < |ps| && ps[i].day == Some(DayTagged(ps, s)[k].0)
  {
    if |ps| > 0 {
      TaggedDaysComeFromPoints(ps[1..], s);
      var rest := DayTagged(ps[1..], s);
      var head := if ps[0].day.Some? then [(ps[0].day.value, OrZero(Value(ps[0], s)))] else [];
      assert DayTagged(ps, s) == head + rest;
      forall k | 0 <= k < |DayTagged(ps, s)|
        ensures exists i :: 0 <= i < |ps| && ps[i].day == Some(DayTagged(ps, s)[k].0)
      {
        if k < |head| {
          assert ps[0].day == Some(DayTagged(ps, s)[k].0);
        } else {
          var i :| 0 <= i < |ps[1..]| && ps[1..][i].day == Some(rest[k - |head|].0);
          assert ps[i + 1].day == Some(DayTagged(ps, s)[k].0);
        }
      }
    } else {
      assert |DayTagged(ps, s)| == 0;
    }
  }

  /** The smallest day of a dated point, if any. */
  function FirstDay(ps: seq<Point>): (r: Option<int>)
    ensures r.None? <==> forall i :: 0 <= i < |ps| ==> ps[i].day.None?
    ensures r.Some? ==> exists i :: 0 <= i < |ps| && ps[i].day == r
    ensures r.Some? ==> forall i :: 0 <= i < |ps| && ps[i].day.Some? ==> r.value <= ps[i].day.value
  {
    if |ps| == 0 then None
    else
      var rest := FirstDay(ps[1..]);
      if ps[0].day.None? then rest
      else if rest.Some? && rest.value < ps[0].day.value then rest
      else ps[0].day
  }

  /** The largest day of a dated point, if any. */
  function LastDay(ps: seq<Point>): (r: Option<int>)
    ensures r.None? <==> forall i :: 0 <= i < |ps| ==> ps[i].day.None?
    ensures r.Some? ==> exists i :: 0 <= i < |ps| && ps[i].day == r
    ensures r.Some? ==> forall i :: 0 <= i < |ps| && ps[i].day.Some? ==> ps[i].day.value <= r.value
  {
    if |ps| == 0 then None
    else
      var rest := LastDay(ps[1..]);
      if ps[0].day.None? then rest
      else if rest.Some? && rest.value > ps[0].day.value then rest
      else ps[0].day
  }

  /** The days `first`, `first + 1`, ..., `first + n - 1`. */
  function DayRange(first: int, n: nat): (r: seq<int>)
    ensures |r| == n
    ensures forall k :: 0 <= k < n ==> r[k] == first + k
    decreases n
  {
    if n == 0 then [] else [first] + DayRange(first + 1, n - 1)
  }

  /** One bucket per day from `first` on: the sum of that day's values,
      0 for a day without entries. */
  function Buckets(ps: seq<(int, real)>, first: int, n: nat): (r: seq<real>)
    ensures |r| == n
    decreases n
  {
    if n == 0 then [] else [TotalAt(ps, first)] + Buckets(ps, first + 1, n - 1)
  }

  lemma {:induction false} BucketAt(ps: seq<(int, real)>, first: int, n: nat, k: int)
    requires 0 <= k < n
    ensures Buckets(ps, first, n)[k] == TotalAt(ps, first + k)
    decreases n
  {
    if k > 0 {
      BucketAt(ps, first + 1, n - 1, k - 1);
    }
  }

  lemma {:induction false} BucketsArePerKey(ps: seq<(int, real)>, first: int, n: nat)
    ensures SumSeq(Buckets(ps, first, n)) == TotalPerKey(ps, DayRange(first, n))
    decreases n
  {
    if n > 0 {
      BucketsArePerKey(ps, first + 1, n - 1);
      assert Buckets(ps, first, n)[1..] == Buckets(ps, first + 1, n - 1);
      assert DayRange(first, n)[1..] == DayRange(first + 1, n - 1);
    }
  }

  /** The daily grid before gap filling: first day and one bucket per day
      up to the last day, for each series. */
  datatype Daily = Daily(firstDay: int, distance: seq<real>, cost: seq<real>, kilometrage: seq<real>)

  function SeriesOf(d: Daily, s: Series): seq<real>
  {
    match s
    case NormalisedDistance => d.distance
    case NormalisedCost => d.cost
    case DailyKilometrage => d.kilometrage
  }

  /** `resample("D").sum()`: one bucket per calendar day from the first to
      the last dated point, for each series; nothing when no point is dated. */
  function Resample(ps: seq<Point>): (r: Option<Daily>)
    ensures r.None? <==> forall i :: 0 <= i < |ps| ==> ps[i].day.None?
    ensures r.Some? ==> FirstDay(ps).Some? && LastDay(ps).Some?
    ensures r.Some? ==> r.value.firstDay == FirstDay(ps).value
    ensures r.Some? ==> r.value == Grid(ps, FirstDay(ps).value, LastDay(ps).value - FirstDay(ps).value + 1)
    ensures r.Some? ==> |r.value.distance| == |r.value.cost| == |r.value.kilometrage|
                          == LastDay(ps).value - FirstDay(ps).value + 1 > 0
  {
    var first := FirstDay(ps);
    var last := LastDay(ps);
    if first.None? then None
    else
      FirstNotAfterLast(ps);
      Some(Grid(ps, first.value, last.value - first.value + 1))
  }

  lemma FirstNotAfterLast(ps: seq<Point>)
    requires FirstDay(ps).Some?
    ensures LastDay(ps).Some? && FirstDay(ps).value <= LastDay(ps).value
  {
    var i :| 0 <= i < |ps| && ps[i].day == FirstDay(ps);
  }

  /** The daily grid of `n` days from `first`, one bucket list per series. */
  function Grid(ps: seq<Point>, first: int, n: nat): (d: Daily)
    ensures d.firstDay == first
    ensures |d.distance| == |d.cost| == |d.kilometrage| == n
  {
    Daily(first,
          Buckets(DayTagged(ps, NormalisedDistance), first, n),
          Buckets(DayTagged(ps, NormalisedCost), first, n),
          Buckets(DayTagged(ps, DailyKilometrage), first, n))
  }

  /** Each bucket of the daily grid is the sum of that day's values of the
      series, missing values counting as 0 and a day without entries
      giving 0. */
  lemma ResampleBuckets(ps: seq<Point>, d: Daily, s: Series, k: int)
    requires Resample(ps) == Some(d)
    requires 0 <= k < |SeriesOf(d, s)|
    ensures SeriesOf(d, s)[k] == TotalAt(DayTagged(ps, s), d.firstDay + k)
  {
    var first := FirstDay(ps).value;
    var n := LastDay(ps).value - first + 1;
    GridAt(ps, d, first, n, s, k);
  }

  lemma GridAt(ps: seq<Point>, d: Daily, first: int, n: nat, s: Series, k: int)
    requires d == Grid(ps, first, n)
    requires 0 <= k < n
    ensures SeriesOf(d, s)[k] == TotalAt(DayTagged(ps, s), d.firstDay + k)
  {
    assert SeriesOf(Grid(ps, first, n), s) == Buckets(DayTagged(ps, s), first, n);
    BucketAt(DayTagged(ps, s), first, n, k);
  }

  /** Resampling loses nothing: for each series, the daily buckets add up
      to the sum over all dated points. */
  lemma ResampleKeepsTotal(ps: seq<Point>, d: Daily, s: Series)
    requires Resample(ps) == Some(d)
    ensures SumSeq(SeriesOf(d, s)) == Total(DayTagged(ps, s))
  {
    var first := FirstDay(ps).value;
    var n := LastDay(ps).value - first + 1;
    TaggedDaysInRange(ps, s, first, n);
    GridTotal(ps, d, first, n, s);
  }

  /** When every tagged day lies on a grid of distinct days, the grid's
      buckets add up to the total of the tagged values. */
  lemma GridTotal(ps: seq<Point>, d: Daily, first: int, n: nat, s: Series)
    requires d == Grid(ps, first, n)
    requires Distinct(DayRange(first, n))
    requires forall k :: 0 <= k < |DayTagged(ps, s)| ==> DayTagged(ps, s)[k].0 in DayRange(first, n)
    ensures SumSeq(SeriesOf(d, s)) == Total(DayTagged(ps, s))
  {
    var tagged := DayTagged(ps, s);
    var days := DayRange(first, n);
    assert SeriesOf(d, s) == Buckets(tagged, first, n);
    BucketsArePerKey(tagged, first, n);
    PartitionTotal(tagged, days);
    TotalInCoversAll(tagged, days);
  }

  /** Every tagged day lies on the grid from the first to the last day. */
  lemma TaggedDaysInRange(ps: seq<Point>, s: Series, first: int, n: nat)
    requires FirstDay(ps) == Some(first)
    requires LastDay(ps).Some? && n == LastDay(ps).value - first + 1
    ensures Distinct(DayRange(first, n))
    ensures forall k :: 0 <= k < |DayTagged(ps, s)| ==> DayTagged(ps, s)[k].0 in DayRange(first, n)
  {
    var days := DayRange(first, n);
    var tagged := DayTagged(ps, s);
    TaggedDaysComeFromPoints(ps, s);
    forall k | 0 <= k < |tagged|
      ensures tagged[k].0 in days
    {
      var j :| 0 <= j < |ps| && ps[j].day == Some(tagged[k].0);
      assert days[tagged[k].0 - first] == tagged[k].0;
    }
  }

  // ---------------------------------------------------------------------------
  // Zero replacement and back-fill

  /** `replace(0, nan)`. */
  function ZeroToMissing(xs: seq<Option<real>>): (r: seq<Option<real>>)
    ensures |r| == |xs|
    ensures forall i :: 0 <= i < |xs| ==> (r[i].None? <==> xs[i].None? || xs[i] == Some(0.0))
    ensures forall i :: 0 <= i < |xs| && r[i].Some? ==> r[i] == xs[i]
  {
    seq(|xs|, i requires 0 <= i < |xs| => if xs[i] == Some(0.0) then None else xs[i])
  }

  /** The first present value at or after position `i`, if any. */
  function NextPresent(xs: seq<Option<real>>, i: nat): Option<real>
    requires i <= |xs|
    decreases |xs| - i
  {
    if i == |xs| then None
    else if xs[i].Some? then xs[i]
    else NextPresent(xs, i + 1)
  }

  /** `bfill()`: every missing cell takes the nearest later present value;
      cells with no later present value stay missing. */
  function BackFill(xs: seq<Option<real>>): (r: seq<Option<real>>)
    ensures |r| == |xs|
    ensures forall i :: 0 <= i < |xs| ==> r[i] == NextPresent(xs, i)
  {
    if |xs| == 0 then []
    else
      var rest := BackFill(xs[1..]);
      var head := if xs[0].Some? then xs[0] else if |rest| > 0 then rest[0] else None;
      forall i | 0 <= i < |xs[1..]|
        ensures NextPresent(xs[1..], i) == NextPresent(xs, i + 1)
      {
        NextPresentShift(xs, i + 1);
      }
      [head] + rest
  }

  /** `NextPresent` looks only at the suffix it starts from. */
  lemma {:induction false} NextPresentShift(xs: seq<Option<real>>, i: nat)
    requires 1 <= i <= |xs|
    ensures NextPresent(xs[1..], i - 1) == NextPresent(xs, i)
    decreases |xs| - i
  {
    if i < |xs| {
      assert xs[1..][i - 1] == xs[i];
      NextPresentShift(xs, i + 1);
    }
  }

  /** The next present value is present at its own position, with only
      missing cells in between; no next value means only missing cells. */
  lemma {:induction false} NextPresentWitness(xs: seq<Option<real>>, i: nat)
    requires i <= |xs|
    ensures NextPresent(xs, i).Some? ==>
              exists j :: i <= j < |xs| && xs[j] == NextPresent(xs, i) && forall k :: i <= k < j ==> xs[k].None?
    ensures NextPresent(xs, i).None? <==> forall j :: i <= j < |xs| ==> xs[j].None?
    decreases |xs| - i
  {
    if i < |xs| && xs[i].None? {
      NextPresentWitness(xs, i + 1);
    }
  }

  /** Zeros become missing and are then back-filled. */
  function FillGaps(xs: seq<Option<real>>): (r: seq<Option<real>>)
    ensures |r| == |xs|
  {
    BackFill(ZeroToMissing(xs))
  }

  /** After filling: a non-zero value is kept; a zero or missing cell takes
      the nearest later non-zero value, with only zero or missing cells in
      between, or stays missing when there is none. */
  lemma FillGapsCells(xs: seq<Option<real>>, i: int)
    requires 0 <= i < |xs|
    ensures xs[i].Some? && xs[i] != Some(0.0) ==> FillGaps(xs)[i] == xs[i]
    ensures FillGaps(xs)[i].Some? ==>
              exists j :: i <= j < |xs| && xs[j] == FillGaps(xs)[i] && xs[j] != Some(0.0)
                && forall k :: i <= k < j ==> xs[k].None? || xs[k] == Some(0.0)
    ensures FillGaps(xs)[i].None? <==> forall j :: i <= j < |xs| ==> xs[j].None? || xs[j] == Some(0.0)
  {
    var z := ZeroToMissing(xs);
    NextPresentWitness(z, i);
  }

  /** No cell holds zero after filling. */
  lemma FillGapsHasNoZero(xs: seq<Option<real>>)
    ensures forall i :: 0 <= i < |xs| ==> FillGaps(xs)[i] != Some(0.0)
  {
    forall i | 0 <= i < |xs|
      ensures FillGaps(xs)[i] != Some(0.0)
    {
      FillGapsCells(xs, i);
    }
  }

  /** Back-filling a back-filled column changes nothing. */
  lemma {:induction false} BackFillIdempotent(xs: seq<Option<real>>)
    ensures BackFill(BackFill(xs)) == BackFill(xs)
  {
    if |xs| > 0 {
      var r := BackFill(xs);
      BackFillIdempotent(xs[1..]);
      assert r[1..] == BackFill(xs[1..]) by {
        forall i | 0 <= i < |xs| - 1
          ensures r[1..][i] == BackFill(xs[1..])[i]
        {
          NextPresentShift(xs, i + 1);
        }
      }
      assert r[0].None? && |r| > 1 ==> r[1].None?;
    }
  }

  /** Filling a filled column again changes nothing. */
  lemma FillGapsIdempotent(xs: seq<Option<real>>)
    ensures FillGaps(FillGaps(xs)) == FillGaps(xs)
  {
    var f := FillGaps(xs);
    FillGapsHasNoZero(xs);
    assert ZeroToMissing(f) == f;
    BackFillIdempotent(ZeroToMissing(xs));
  }

  // ---------------------------------------------------------------------------
  // data_visualisations

  /** The three plotted daily series, from `firstDay` on. */
  datatype Chart = Chart(firstDay: int, distance: seq<Option<real>>, cost: seq<Option<real>>, kilometrage: seq<Option<real>>)

  function AsCells(xs: seq<real>): (r: seq<Option<real>>)
    ensures |r| == |xs|
    ensures forall i :: 0 <= i < |xs| ==> r[i] == Some(xs[i])
  {
    seq(|xs|, i requires 0 <= i < |xs| => Some(xs[i]))
  }

  /** The chart data of `data_visualisations`: sort, normalise, resample
      daily, then fill the zero days of each series. The model yields no
      chart data when no row is dated, because the daily grid then has no
      first day to start from. */
  function DataVisualisations(rows: seq<Entry>): (r: Option<Chart>)
    ensures r.None? <==> forall i :: 0 <= i < |rows| ==> !Dated(rows[i])
    ensures r.Some? ==> |r.value.distance| == |r.value.cost| == |r.value.kilometrage| > 0
    ensures r.Some? ==> forall i :: 0 <= i < |r.value.cost| ==>
              r.value.distance[i] != Some(0.0) && r.value.cost[i] != Some(0.0) && r.value.kilometrage[i] != Some(0.0)
  {
    var sorted := SortByDate(rows);
    var ps := Prepare(rows);
    assert (forall i :: 0 <= i < |ps| ==> ps[i].day.None?) <==> (forall i :: 0 <= i < |rows| ==> !Dated(rows[i])) by {
      PermutationKeepsUndated(rows, sorted);
    }
    match Resample(ps)
    case None => None
    case Some(d) =>
      var dist := FillGaps(AsCells(d.distance));
      var cost := FillGaps(AsCells(d.cost));
      var km := FillGaps(AsCells(d.kilometrage));
      FillGapsHasNoZero(AsCells(d.distance));
      FillGapsHasNoZero(AsCells(d.cost));
      FillGapsHasNoZero(AsCells(d.kilometrage));
      Some(Chart(d.firstDay, dist, cost, km))
  }

  function ChartSeries(c: Chart, s: Series): seq<Option<real>>
  {
    match s
    case NormalisedDistance => c.distance
    case NormalisedCost => c.cost
    case DailyKilometrage => c.kilometrage
  }

  /** The chart is the daily grid with its zero days filled: it starts on
      the grid's first day, each series is that series of the grid passed
      through `FillGaps`, and a day whose bucket (see `ResampleBuckets`) is
      not zero shows that bucket. What a zero day shows is stated by
      `FilledGridZeroDays`. */
  lemma ChartKeepsNonZeroDays(rows: seq<Entry>, s: Series)
    requires exists k :: 0 <= k < |rows| && Dated(rows[k])
    ensures DataVisualisations(rows).Some? && Resample(Prepare(rows)).Some?
    ensures var c := DataVisualisations(rows).value;
            var d := Resample(Prepare(rows)).value;
            && c.firstDay == d.firstDay
            && ChartSeries(c, s) == FillGaps(AsCells(SeriesOf(d, s)))
            && |ChartSeries(c, s)| == |SeriesOf(d, s)|
            && forall i :: 0 <= i < |SeriesOf(d, s)| && SeriesOf(d, s)[i] != 0.0 ==>
                 ChartSeries(c, s)[i] == Some(SeriesOf(d, s)[i])
  {
    var c := DataVisualisations(rows).value;
    var d := Resample(Prepare(rows)).value;
    assert ChartSeries(c, s) == FillGaps(AsCells(SeriesOf(d, s)));
    FilledGridKeepsNonZero(SeriesOf(d, s));
  }

  /** Filling keeps every non-zero bucket and the grid's length. */
  lemma FilledGridKeepsNonZero(xs: seq<real>)
    ensures |FillGaps(AsCells(xs))| == |xs|
    ensures forall i :: 0 <= i < |xs| && xs[i] != 0.0 ==> FillGaps(AsCells(xs))[i] == Some(xs[i])
  {
    forall i | 0 <= i < |xs| && xs[i] != 0.0
      ensures FillGaps(AsCells(xs))[i] == Some(xs[i])
    {
      FillGapsKeepsNonZero(AsCells(xs), i);
    }
  }

  /** A day of the filled grid shows the next non-zero bucket from that day
      on, with only zero buckets in between, and is missing exactly when
      every bucket from that day on is zero. */
  lemma FilledGridZeroDays(xs: seq<real>, i: int)
    requires 0 <= i < |xs|
    ensures FillGaps(AsCells(xs))[i].None? <==> forall j :: i <= j < |xs| ==> xs[j] == 0.0
    ensures FillGaps(AsCells(xs))[i].Some? ==>
              exists j :: i <= j < |xs| && FillGaps(AsCells(xs))[i] == Some(xs[j]) && xs[j] != 0.0
                && forall k :: i <= k < j ==> xs[k] == 0.0
  {
    FillGapsCells(AsCells(xs), i);
  }

  lemma FillGapsKeepsNonZero(xs: seq<Option<real>>, i: int)
    requires 0 <= i < |xs| && xs[i].Some? && xs[i] != Some(0.0)
    ensures FillGaps(xs)[i] == xs[i]
  {
    FillGapsCells(xs, i);
  }

  /** A permutation keeps the dated rows: if every row of one order is
      undated, so is every row of the other. */
  lemma PermutationKeepsUndated(a: seq<Entry>, b: seq<Entry>)
    requires multiset(a) == multiset(b)
    ensures (forall i :: 0 <= i < |a| ==> !Dated(a[i])) <==> (forall i :: 0 <= i < |b| ==> !Dated(b[i]))
  {
    if forall i :: 0 <= i < |a| ==> !Dated(a[i]) {
      UndatedCarriesOver(a, b);
    }
    if forall i :: 0 <= i < |b| ==> !Dated(b[i]) {
      UndatedCarriesOver(b, a);
    }
  }

  lemma UndatedCarriesOver(a: seq<Entry>, b: seq<Entry>)
    requires multiset(a) == multiset(b)
    requires forall i :: 0 <= i < |a| ==> !Dated(a[i])
    ensures forall i :: 0 <= i < |b| ==> !Dated(b[i])
  {
    forall i | 0 <= i < |b|
      ensures !Dated(b[i])
    {
      assert b[i] in multiset(b);
      assert b[i] in a;
      var j :| 0 <= j < |a| && a[j] == b[i];
    }
  }
}
