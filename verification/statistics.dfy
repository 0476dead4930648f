/** The statistics engine: select the entries of a date window that is
    inclusive at both ends, optionally group them by calendar month, and
    sum, average or take the most frequent petrol type.
 */
module Statistics {
  import opened Values
  import opened Entries
  import opened Tally

  /** The three aggregation functions, after lower-casing of the name. */
  datatype Function = Sum | Average | Mode

  /** The three summed columns. */
  datatype Sums = Sums(distance: real, litres: real, totalCost: real)

  /** The six averaged columns; a mean is None when no value is present. */
  datatype Means = Means(
    distance: Option<real>,
    litres: Option<real>,
    totalCost: Option<real>,
    petrolPrice: Option<real>,
    kilometrage: Option<real>,
    costPerKilometre: Option<real>
  )

  /** What the engine returns, in each of its six shapes. */
  datatype Stats =
    | Totals(sums: Sums)
    | MonthlyTotals(monthlySums: seq<(YearMonth, Sums)>)
    | Averages(means: Means, meanGap: Option<real>)   // meanGap in seconds; None is NaT
    | MonthlyAverages(monthlyMeans: seq<(YearMonth, Means)>)
    | Modes(modes: set<string>)
    | MonthlyModes(monthlyModes: seq<(YearMonth, set<string>)>)

  // ---------------------------------------------------------------------------
  // Function names

  function LowerChar(c: char): char
  {
    if 'A' <= c <= 'Z' then (c as int - 'A' as int + 'a' as int) as char else c
  }

  /** `str.lower()` on ASCII letters: every capital becomes its small
      letter, every other character is kept, and no capital is left. */
  function Lower(s: string): (r: string)
    ensures |r| == |s|
    ensures forall i :: 0 <= i < |s| && 'A' <= s[i] <= 'Z' ==> r[i] as int == s[i] as int + 32
    ensures forall i :: 0 <= i < |s| && !('A' <= s[i] <= 'Z') ==> r[i] == s[i]
    ensures forall i :: 0 <= i < |r| ==> !('A' <= r[i] <= 'Z')
  {
    seq(|s|, i requires 0 <= i < |s| => LowerChar(s[i]))
  }

  /** The lower-cased name picks the aggregation; any other name is the
      ValueError "Invalid function". */
  function ParseFunction(name: string): (r: Result<Function, Error>)
    ensures r.Failure? <==> Lower(name) !in {"sum", "average", "mode"}
    ensures r.Failure? ==> r.error == InvalidFunction
    ensures r == Success(Sum) <==> Lower(name) == "sum"
    ensures r == Success(Average) <==> Lower(name) == "average"
    ensures r == Success(Mode) <==> Lower(name) == "mode"
  {
    var f := Lower(name);
    if f == "sum" then Success(Sum)
    else if f == "average" then Success(Average)
    else if f == "mode" then Success(Mode)
    else Failure(InvalidFunction)
  }

  /** Lower-casing twice is lower-casing once. */
  lemma LowerIdempotent(s: string)
    ensures Lower(Lower(s)) == Lower(s)
  {
    var l := Lower(s);
    forall i | 0 <= i < |s|
      ensures Lower(l)[i] == l[i]
    {
      assert !('A' <= l[i] <= 'Z');
    }
  }

  /** The function name is matched without regard to letter case, and only
      the three names sum, average and mode are accepted. */
  lemma ParseIgnoresCase(name: string)
    ensures ParseFunction(Lower(name)) == ParseFunction(name)
  {
    LowerIdempotent(name);
  }

  /** Upper- and mixed-case spellings are accepted; other names are not. */
  lemma ParseExamples()
    ensures ParseFunction("SUM") == Success(Sum)
    ensures ParseFunction("Average") == Success(Average)
    ensures ParseFunction("mOdE") == Success(Mode)
    ensures ParseFunction("median") == Failure(InvalidFunction)
    ensures ParseFunction("") == Failure(InvalidFunction)
  {
    assert Lower("SUM") == "sum";
    assert Lower("Average") == "average";
    assert Lower("mOdE") == "mode";
    assert Lower("median") == "median";
  }

  // ---------------------------------------------------------------------------
  // Window selection

  /** `_coerce_dates`: an omitted bound becomes the table's minimum or
      maximum date (NaT, i.e. None, when the table has no dated row). */
  function CoerceDates(rows: seq<Entry>, start: Option<int>, end: Option<int>): (b: (Option<int>, Option<int>))
    ensures start.Some? ==> b.0 == start
    ensures end.Some? ==> b.1 == end
    ensures start.None? ==> (b.0.None? <==> forall i :: 0 <= i < |rows| ==> !Dated(rows[i]))
    ensures end.None? ==> (b.1.None? <==> forall i :: 0 <= i < |rows| ==> !Dated(rows[i]))
    ensures start.None? && b.0.Some? ==> forall i :: 0 <= i < |rows| && Dated(rows[i]) ==> b.0.value <= Time(rows[i])
    ensures end.None? && b.1.Some? ==> forall i :: 0 <= i < |rows| && Dated(rows[i]) ==> Time(rows[i]) <= b.1.value
    ensures start.None? && b.0.Some? ==> exists i :: 0 <= i < |rows| && Dated(rows[i]) && Time(rows[i]) == b.0.value
    ensures end.None? && b.1.Some? ==> exists i :: 0 <= i < |rows| && Dated(rows[i]) && Time(rows[i]) == b.1.value
  {
    (if start.None? then EarliestDate(rows) else start,
     if end.None? then LatestDate(rows) else end)
  }

  /** `start <= index <= end`; a comparison with NaT is false. */
  predicate InWindow(e: Entry, lo: Option<int>, hi: Option<int>)
  {
    Dated(e) && lo.Some? && hi.Some? && lo.value <= Time(e) <= hi.value
  }

  /** The rows inside the window, in table order. */
  function Select(rows: seq<Entry>, lo: Option<int>, hi: Option<int>): (r: seq<Entry>)
    ensures forall i :: 0 <= i < |r| ==> InWindow(r[i], lo, hi)
    ensures forall e :: multiset(r)[e] == if InWindow(e, lo, hi) then multiset(rows)[e] else 0
    ensures IsSubsequence(r, rows)
  {
    if |rows| == 0 then []
    else
      var rest := Select(rows[1..], lo, hi);
      assert rows == [rows[0]] + rows[1..];
      if InWindow(rows[0], lo, hi) then
        assert ([rows[0]] + rest)[1..] == rest;
        [rows[0]] + rest
      else
        rest
  }

  /** The selection a call works on, after resolving omitted bounds. */
  function Selection(rows: seq<Entry>, start: Option<int>, end: Option<int>): seq<Entry>
  {
    var b := CoerceDates(rows, start, end);
    Select(rows, b.0, b.1)
  }

  /** Selecting from a date-sorted table gives a date-sorted selection. */
  lemma {:induction false} SelectKeepsOrder(rows: seq<Entry>, lo: Option<int>, hi: Option<int>)
    requires SortedByDate(rows)
    ensures SortedByDate(Select(rows, lo, hi))
  {
    if |rows| > 0 {
      assert SortedByDate(rows[1..]) by {
        forall i, j | 0 <= i < j < |rows[1..]|
          ensures DateLe(rows[1..][i], rows[1..][j])
        {
          assert rows[1..][i] == rows[i + 1] && rows[1..][j] == rows[j + 1];
        }
      }
      SelectKeepsOrder(rows[1..], lo, hi);
      var rest := Select(rows[1..], lo, hi);
      if InWindow(rows[0], lo, hi) {
        forall y | y in rest
          ensures DateLe(rows[0], y)
        {
          assert multiset(rest)[y] > 0;
          assert y in rows[1..];
        }
        PrependSorted(rows[0], rest);
      }
    }
  }

  /** When the window encloses every dated row, exactly the dated rows are
      selected. */
  lemma {:induction false} SelectEnclosing(rows: seq<Entry>, lo: int, hi: int)
    requires forall i :: 0 <= i < |rows| && Dated(rows[i]) ==> lo <= Time(rows[i]) <= hi
    ensures Select(rows, Some(lo), Some(hi)) == DatedRows(rows)
  {
    if |rows| > 0 {
      SelectEnclosing(rows[1..], lo, hi);
    }
  }

  /** With no bounds, every dated row is selected, and only those. */
  lemma NoBoundsSelectsEveryDatedEntry(rows: seq<Entry>)
    ensures Selection(rows, None, None) == DatedRows(rows)
  {
    var b := CoerceDates(rows, None, None);
    if b.0.Some? {
      SelectEnclosing(rows, b.0.value, b.1.value);
    }
  }

  /** Any window enclosing the whole date range selects what no window does. */
  lemma EnclosingWindowSelectsAll(rows: seq<Entry>, start: int, end: int)
    requires forall i :: 0 <= i < |rows| && Dated(rows[i]) ==> start <= Time(rows[i]) <= end
    ensures Selection(rows, Some(start), Some(end)) == Selection(rows, None, None)
  {
    SelectEnclosing(rows, start, end);
    NoBoundsSelectsEveryDatedEntry(rows);
  }

  // ---------------------------------------------------------------------------
  // Columns, sums and means

  function ColumnCells(s: seq<Entry>, c: Column): (r: seq<Option<real>>)
    ensures |r| == |s|
    ensures forall i :: 0 <= i < |s| ==> r[i] == Cell(s[i], c)
  {
    if |s| == 0 then [] else [Cell(s[0], c)] + ColumnCells(s[1..], c)
  }

  function SumColumn(s: seq<Entry>, c: Column): real
  {
    SumCells(ColumnCells(s, c))
  }

  /** Sum mode: each total is the sum of the column's present values, so a
      missing value contributes nothing and an empty selection gives zeros. */
  function SumColumns(s: seq<Entry>): (r: Sums)
    ensures r.distance == SumSeq(PresentOf(ColumnCells(s, Distance)))
    ensures r.litres == SumSeq(PresentOf(ColumnCells(s, Litres)))
    ensures r.totalCost == SumSeq(PresentOf(ColumnCells(s, TotalCost)))
    ensures |s| == 0 ==> r == Sums(0.0, 0.0, 0.0)
  {
    SumCellsSkipsMissing(ColumnCells(s, Distance));
    SumCellsSkipsMissing(ColumnCells(s, Litres));
    SumCellsSkipsMissing(ColumnCells(s, TotalCost));
    Sums(SumColumn(s, Distance), SumColumn(s, Litres), SumColumn(s, TotalCost))
  }

  function MeanColumns(s: seq<Entry>): Means
  {
    Means(MeanPresent(ColumnCells(s, Distance)), MeanPresent(ColumnCells(s, Litres)),
          MeanPresent(ColumnCells(s, TotalCost)), MeanPresent(ColumnCells(s, PetrolPrice)),
          MeanPresent(ColumnCells(s, Kilometrage)), MeanPresent(ColumnCells(s, CostPerKilometre)))
  }

  /** Each column of the averages record is the average of that column's
      present values only, and None when no value is present (as for an
      empty selection). */
  lemma MeanOverPresentValues(s: seq<Entry>, c: Column)
    ensures var m := MeanOf(MeanColumns(s), c);
            var vs := PresentOf(ColumnCells(s, c));
            && (m.None? <==> |vs| == 0)
            && (m.Some? ==> m.value == SumSeq(vs) / (|vs| as real))
  {
    assert MeanOf(MeanColumns(s), c) == MeanPresent(ColumnCells(s, c));
  }

  // ---------------------------------------------------------------------------
  // Mean gap between entries

  function Times(s: seq<Entry>): (r: seq<int>)
    requires forall i :: 0 <= i < |s| ==> Dated(s[i])
    ensures |r| == |s|
    ensures forall i :: 0 <= i < |s| ==> r[i] == Time(s[i])
  {
    if |s| == 0 then [] else [Time(s[0])] + Times(s[1..])
  }

  /** The consecutive differences of a timestamp sequence, in seconds. */
  function Steps(ts: seq<int>): (r: seq<Option<real>>)
    ensures |r| == if |ts| < 2 then 0 else |ts| - 1
    ensures forall i :: 0 <= i < |r| ==> r[i] == Some((ts[i + 1] - ts[i]) as real)
  {
    if |ts| < 2 then [] else [Some((ts[1] - ts[0]) as real)] + Steps(ts[1..])
  }

  /** `index.diff()`: the first difference is missing. */
  function Diff(ts: seq<int>): seq<Option<real>>
  {
    [None] + Steps(ts)
  }

  /** The differences of a timestamp sequence add up to its overall span. */
  lemma {:induction false} Telescope(ts: seq<int>)
    requires |ts| > 0
    ensures SumSeq(PresentOf(Steps(ts))) == (ts[|ts| - 1] - ts[0]) as real
    ensures |PresentOf(Steps(ts))| == |ts| - 1
  {
    if |ts| >= 2 {
      Telescope(ts[1..]);
      var st := Steps(ts);
      assert st[1..] == Steps(ts[1..]);
      assert PresentOf(st) == [(ts[1] - ts[0]) as real] + PresentOf(st[1..]);
      assert ([(ts[1] - ts[0]) as real] + PresentOf(st[1..]))[1..] == PresentOf(st[1..]);
    }
  }

  /** The mean time between selected entries: the mean of the non-missing
      differences when more than one entry is selected, NaT otherwise. It
      telescopes to the overall span over the number of gaps, and is not
      negative when the selection is in date order. */
  function MeanGap(s: seq<Entry>): (r: Option<real>)
    requires forall i :: 0 <= i < |s| ==> Dated(s[i])
    ensures r.None? <==> |s| <= 1
    ensures r.Some? ==> r.value == (Time(s[|s| - 1]) - Time(s[0])) as real / ((|s| - 1) as real)
    ensures r.Some? && SortedByDate(s) ==> r.value >= 0.0
  {
    if |s| > 1 then
      var ts := Times(s);
      DiffTelescopes(ts);
      assert SortedByDate(s) ==> DateLe(s[0], s[|s| - 1]);
      MeanPresent(Diff(ts))
    else
      None
  }

  /** The mean of `diff()` is the overall span over the number of gaps. */
  lemma DiffTelescopes(ts: seq<int>)
    requires |ts| > 1
    ensures var m := MeanPresent(Diff(ts));
            m.Some? && m.value == (ts[|ts| - 1] - ts[0]) as real / ((|ts| - 1) as real)
  {
    Telescope(ts);
    assert Diff(ts)[1..] == Steps(ts);
    assert PresentOf(Diff(ts)) == PresentOf(Steps(ts));
  }

  // ---------------------------------------------------------------------------
  // Most frequent petrol type

  /** The present petrol types, in table order (`mode` drops missing ones). */
  function PetrolTypes(s: seq<Entry>): (r: seq<string>)
    ensures forall v :: v in r <==> exists i :: 0 <= i < |s| && s[i].petrolType == Some(v)
  {
    if |s| == 0 then []
    else
      assert forall i :: 1 <= i < |s| ==> s[i] == s[1..][i - 1];
      (if s[0].petrolType.Some? then [s[0].petrolType.value] else []) + PetrolTypes(s[1..])
  }

  /** Each petrol type is listed as many times as rows carry it, so the
      counts the mode is taken from are the per-row counts. */
  lemma {:induction false} PetrolTypesCounts(s: seq<Entry>, v: string)
    ensures multiset(PetrolTypes(s))[v] == multiset(TypeCells(s))[Some(v)]
  {
    if |s| > 0 {
      PetrolTypesCounts(s[1..], v);
      assert TypeCells(s) == [s[0].petrolType] + TypeCells(s[1..]);
      assert PetrolTypes(s) == (if s[0].petrolType.Some? then [s[0].petrolType.value] else []) + PetrolTypes(s[1..]);
    }
  }

  /** The PetrolType cells of the rows, missing ones included. */
  function TypeCells(s: seq<Entry>): (r: seq<Option<string>>)
    ensures |r| == |s|
    ensures forall i :: 0 <= i < |s| ==> r[i] == s[i].petrolType
  {
    seq(|s|, i requires 0 <= i < |s| => s[i].petrolType)
  }

  /** The largest multiplicity in `m` of an element of `cands`. */
  function MaxCount(cands: seq<string>, m: multiset<string>): (r: nat)
    ensures forall i :: 0 <= i < |cands| ==> m[cands[i]] <= r
    ensures |cands| > 0 ==> exists i :: 0 <= i < |cands| && m[cands[i]] == r
    ensures |cands| == 0 ==> r == 0
  {
    if |cands| == 0 then 0
    else
      var rest := MaxCount(cands[1..], m);
      assert forall i :: 1 <= i < |cands| ==> cands[i] == cands[1..][i - 1];
      if m[cands[0]] >= rest then m[cands[0]] else rest
  }

  /** Every value whose count is the maximum count; ties are all kept. */
  function MostFrequent(ts: seq<string>): (r: set<string>)
    ensures forall v :: v in r <==> v in ts && forall w :: multiset(ts)[w] <= multiset(ts)[v]
    ensures |ts| > 0 <==> r != {}
  {
    var m := multiset(ts);
    var top := MaxCount(ts, m);
    assert forall w :: m[w] <= top by {
      forall w
        ensures m[w] <= top
      {
        if w in ts {
          var i :| 0 <= i < |ts| && ts[i] == w;
        }
      }
    }
    var r := set v | v in ts && m[v] == top;
    assert |ts| > 0 ==> r != {} by {
      if |ts| > 0 {
        var i :| 0 <= i < |ts| && m[ts[i]] == top;
        assert ts[i] in r;
      }
    }
    r
  }

  // ---------------------------------------------------------------------------
  // Monthly grouping

  /** The year-month of each dated row, in table order. */
  function MonthList(s: seq<Entry>): (r: seq<YearMonth>)
    ensures forall ym :: ym in r <==> exists i :: 0 <= i < |s| && Dated(s[i]) && MonthOf(s[i]) == ym
  {
    if |s| == 0 then []
    else
      var rest := MonthList(s[1..]);
      assert forall i :: 1 <= i < |s| ==> s[i] == s[1..][i - 1];
      (if Dated(s[0]) then [MonthOf(s[0])] else []) + rest
  }

  /** The group keys, each once, in order of first appearance. */
  function Months(s: seq<Entry>): (r: seq<YearMonth>)
    ensures Distinct(r)
    ensures forall ym :: ym in r <==> exists i :: 0 <= i < |s| && Dated(s[i]) && MonthOf(s[i]) == ym
  {
    var ms := MonthList(s);
    var r := DistinctKeys(ms);
    assert forall ym :: ym in r <==> ym in ms by {
      forall ym
        ensures ym in r <==> ym in ms
      {
        if ym in r {
          var i :| 0 <= i < |r| && r[i] == ym;
        }
        if ym in ms {
          var i :| 0 <= i < |ms| && ms[i] == ym;
        }
      }
    }
    r
  }

  /** The rows of one month, in table order. */
  function Group(s: seq<Entry>, ym: YearMonth): (r: seq<Entry>)
    ensures forall i :: 0 <= i < |r| ==> Dated(r[i]) && MonthOf(r[i]) == ym
    ensures forall e :: multiset(r)[e] == if Dated(e) && MonthOf(e) == ym then multiset(s)[e] else 0
  {
    if |s| == 0 then []
    else
      assert s == [s[0]] + s[1..];
      (if Dated(s[0]) && MonthOf(s[0]) == ym then [s[0]] else []) + Group(s[1..], ym)
  }

  /** The groups partition the dated rows: the keys are distinct, no group
      is empty, and every dated row lies in the group of its own month with
      all its copies and in no other group. */
  lemma MonthlyGroupsPartition(s: seq<Entry>)
    ensures Distinct(Months(s))
    ensures forall ym :: ym in Months(s) ==> |Group(s, ym)| > 0
    ensures forall i :: 0 <= i < |s| && Dated(s[i]) ==> MonthOf(s[i]) in Months(s)
    ensures forall ym, e :: ym in Months(s) && e in s && Dated(e) ==>
              multiset(Group(s, ym))[e] == if MonthOf(e) == ym then multiset(s)[e] else 0
  {
    forall ym | ym in Months(s)
      ensures |Group(s, ym)| > 0
    {
      var i :| 0 <= i < |s| && Dated(s[i]) && MonthOf(s[i]) == ym;
      assert multiset(Group(s, ym))[s[i]] == multiset(s)[s[i]] > 0;
    }
  }

  function MonthlySums(s: seq<Entry>, ks: seq<YearMonth>): (r: seq<(YearMonth, Sums)>)
    ensures |r| == |ks|
    ensures forall i :: 0 <= i < |ks| ==> r[i] == (ks[i], SumColumns(Group(s, ks[i])))
  {
    if |ks| == 0 then [] else [(ks[0], SumColumns(Group(s, ks[0])))] + MonthlySums(s, ks[1..])
  }

  function MonthlyMeans(s: seq<Entry>, ks: seq<YearMonth>): (r: seq<(YearMonth, Means)>)
    ensures |r| == |ks|
    ensures forall i :: 0 <= i < |ks| ==> r[i] == (ks[i], MeanColumns(Group(s, ks[i])))
  {
    seq(|ks|, i requires 0 <= i < |ks| => (ks[i], MeanColumns(Group(s, ks[i]))))
  }

  function MonthlyModeSets(s: seq<Entry>, ks: seq<YearMonth>): (r: seq<(YearMonth, set<string>)>)
    ensures |r| == |ks|
    ensures forall i :: 0 <= i < |ks| ==> r[i] == (ks[i], MostFrequent(PetrolTypes(Group(s, ks[i]))))
  {
    seq(|ks|, i requires 0 <= i < |ks| => (ks[i], MostFrequent(PetrolTypes(Group(s, ks[i])))))
  }

  /** The averaged columns, by column. */
  function MeanOf(m: Means, c: Column): Option<real>
  {
    match c
    case Distance => m.distance
    case Litres => m.litres
    case TotalCost => m.totalCost
    case PetrolPrice => m.petrolPrice
    case Kilometrage => m.kilometrage
    case CostPerKilometre => m.costPerKilometre
  }

  /** The summed columns, by column. */
  function SumOf(t: Sums, c: Column): real
    requires c.Distance? || c.Litres? || c.TotalCost?
  {
    match c
    case Distance => t.distance
    case Litres => t.litres
    case TotalCost => t.totalCost
  }

  /** One column of the per-month totals, added up over the months. */
  function AddMonths(ms: seq<(YearMonth, Sums)>, c: Column): real
    requires c.Distance? || c.Litres? || c.TotalCost?
  {
    if |ms| == 0 then 0.0 else SumOf(ms[0].1, c) + AddMonths(ms[1..], c)
  }

  /** Each dated row's value, tagged with its month. */
  function Tagged(s: seq<Entry>, c: Column): (r: seq<(YearMonth, real)>)
    ensures forall i :: 0 <= i < |r| ==> r[i].0 in MonthList(s)
  {
    if |s| == 0 then []
    else
      var rest := Tagged(s[1..], c);
      assert forall ym :: ym in MonthList(s[1..]) ==> ym in MonthList(s) by {
        forall ym | ym in MonthList(s[1..])
          ensures ym in MonthList(s)
        {
          var i :| 0 <= i < |s[1..]| && Dated(s[1..][i]) && MonthOf(s[1..][i]) == ym;
          assert s[1..][i] == s[i + 1];
        }
      }
      (if Dated(s[0]) then [(MonthOf(s[0]), OrZero(Cell(s[0], c)))] else []) + rest
  }

  lemma {:induction false} TaggedAt(s: seq<Entry>, c: Column, ym: YearMonth)
    ensures TotalAt(Tagged(s, c), ym) == SumColumn(Group(s, ym), c)
  {
    if |s| > 0 {
      TaggedAt(s[1..], c, ym);
      var g := Group(s[1..], ym);
      var tg := Tagged(s[1..], c);
      if Dated(s[0]) {
        var p := (MonthOf(s[0]), OrZero(Cell(s[0], c)));
        assert Tagged(s, c) == [p] + tg;
        assert TotalAt([p] + tg, ym) == (if p.0 == ym then p.1 else 0.0) + TotalAt(tg, ym) by {
          assert ([p] + tg)[1..] == tg;
        }
        if MonthOf(s[0]) == ym {
          assert Group(s, ym) == [s[0]] + g;
          SumColumnCons(s[0], g, c);
        } else {
          assert Group(s, ym) == g;
        }
      } else {
        assert Tagged(s, c) == tg;
        assert Group(s, ym) == g;
      }
    }
  }

  lemma SumColumnCons(e: Entry, g: seq<Entry>, c: Column)
    ensures SumColumn([e] + g, c) == OrZero(Cell(e, c)) + SumColumn(g, c)
  {
    var cells := ColumnCells([e] + g, c);
    assert cells[1..] == ColumnCells(g, c);
  }

  lemma {:induction false} TaggedTotal(s: seq<Entry>, c: Column)
    requires forall i :: 0 <= i < |s| ==> Dated(s[i])
    ensures Total(Tagged(s, c)) == SumColumn(s, c)
  {
    if |s| > 0 {
      TaggedTotal(s[1..], c);
      assert ([(MonthOf(s[0]), OrZero(Cell(s[0], c)))] + Tagged(s[1..], c))[1..] == Tagged(s[1..], c);
    }
  }

  lemma {:induction false} MonthlySumsArePerKey(s: seq<Entry>, ks: seq<YearMonth>, c: Column)
    requires c.Distance? || c.Litres? || c.TotalCost?
    ensures AddMonths(MonthlySums(s, ks), c) == TotalPerKey(Tagged(s, c), ks)
  {
    if |ks| > 0 {
      MonthlySumsArePerKey(s, ks[1..], c);
      TaggedAt(s, c, ks[0]);
      assert MonthlySums(s, ks)[1..] == MonthlySums(s, ks[1..]);
    }
  }

  /** The per-month totals of a fully dated selection add up, column by
      column, to the total over the whole selection. */
  lemma MonthlyTotalsAddUp(s: seq<Entry>, c: Column)
    requires forall i :: 0 <= i < |s| ==> Dated(s[i])
    requires c.Distance? || c.Litres? || c.TotalCost?
    ensures AddMonths(MonthlySums(s, Months(s)), c) == SumOf(SumColumns(s), c)
  {
    var ks := Months(s);
    var ps := Tagged(s, c);
    MonthlySumsArePerKey(s, ks, c);
    PartitionTotal(ps, ks);
    TotalInCoversAll(ps, ks);
    TaggedTotal(s, c);
  }

  // ---------------------------------------------------------------------------
  // numeric_statistics

  function SumStats(sel: seq<Entry>, monthly: bool): (r: Stats)
    requires forall i :: 0 <= i < |sel| ==> Dated(sel[i])
    ensures r.Totals? || r.MonthlyTotals?
    ensures r.MonthlyTotals? <==> monthly
  {
    if monthly then MonthlyTotals(MonthlySums(sel, Months(sel))) else Totals(SumColumns(sel))
  }

  function AverageStats(sel: seq<Entry>, monthly: bool): (r: Stats)
    requires forall i :: 0 <= i < |sel| ==> Dated(sel[i])
    ensures r.Averages? || r.MonthlyAverages?
    ensures r.MonthlyAverages? <==> monthly
    ensures r.Averages? ==> (r.meanGap.None? <==> |sel| <= 1)
  {
    if monthly then MonthlyAverages(MonthlyMeans(sel, Months(sel)))
    else Averages(MeanColumns(sel), MeanGap(sel))
  }

  function ModeStats(sel: seq<Entry>, monthly: bool): (r: Stats)
    ensures r.Modes? || r.MonthlyModes?
    ensures r.MonthlyModes? <==> monthly
  {
    if monthly then MonthlyModes(MonthlyModeSets(sel, Months(sel)))
    else Modes(MostFrequent(PetrolTypes(sel)))
  }

  /** The aggregation of an already selected, fully dated set of rows. */
  function Aggregate(sel: seq<Entry>, hasPetrolType: bool, f: Function, monthly: bool): (r: Result<Stats, Error>)
    requires forall i :: 0 <= i < |sel| ==> Dated(sel[i])
    ensures r.Failure? <==> f == Mode && !hasPetrolType
    ensures r.Failure? ==> r.error == ColumnNotFound("PetrolType")
    ensures r.Success? ==> (monthly <==> r.value.MonthlyTotals? || r.value.MonthlyAverages? || r.value.MonthlyModes?)
    ensures r.Success? ==> (f == Sum <==> r.value.Totals? || r.value.MonthlyTotals?)
    ensures r.Success? ==> (f == Average <==> r.value.Averages? || r.value.MonthlyAverages?)
    ensures f == Sum && !monthly ==> r.Success? && r.value.sums == SumColumns(sel)
    ensures f == Sum && monthly ==> r.Success? && r.value.monthlySums == MonthlySums(sel, Months(sel))
  {
    match f
    case Sum => Success(SumStats(sel, monthly))
    case Average => Success(AverageStats(sel, monthly))
    case Mode =>
      if !hasPetrolType then Failure(ColumnNotFound("PetrolType"))
      else Success(ModeStats(sel, monthly))
  }

  /** `numeric_statistics(data, start_date, end_date, function, monthly)`. */
  function NumericStatistics(t: Table, start: Option<int>, end: Option<int>, name: string, monthly: bool)
    : (r: Result<Stats, Error>)
    ensures r == Failure(InvalidFunction) <==> Lower(name) !in {"sum", "average", "mode"}
    ensures r == Failure(ColumnNotFound("PetrolType")) <==> Lower(name) == "mode" && !t.hasPetrolType
    ensures r.Failure? ==> r == Failure(InvalidFunction) || r == Failure(ColumnNotFound("PetrolType"))
    ensures r.Success? ==> (monthly <==> r.value.MonthlyTotals? || r.value.MonthlyAverages? || r.value.MonthlyModes?)
    ensures r.Success? ==> (Lower(name) == "sum" <==> r.value.Totals? || r.value.MonthlyTotals?)
    ensures r.Success? ==> (Lower(name) == "average" <==> r.value.Averages? || r.value.MonthlyAverages?)
    ensures Lower(name) == "sum" && !monthly ==>
              r == Success(Totals(SumColumns(Selection(t.rows, start, end))))
    ensures Lower(name) == "sum" && monthly ==>
              var s := Selection(t.rows, start, end);
              r == Success(MonthlyTotals(MonthlySums(s, Months(s))))
  {
    var sel := Selection(t.rows, start, end);
    match ParseFunction(name)
    case Failure(e) => Failure(e)
    case Success(f) => Aggregate(sel, t.hasPetrolType, f, monthly)
  }

  /** A window enclosing the whole date range gives the same result as no
      window, whatever the function and grouping. */
  lemma EnclosingWindowSameResult(t: Table, start: int, end: int, name: string, monthly: bool)
    requires forall i :: 0 <= i < |t.rows| && Dated(t.rows[i]) ==> start <= Time(t.rows[i]) <= end
    ensures NumericStatistics(t, Some(start), Some(end), name, monthly)
         == NumericStatistics(t, None, None, name, monthly)
  {
    EnclosingWindowSelectsAll(t.rows, start, end);
  }

  /** With monthly grouping, the per-month sums add up to the sum over the
      same window without grouping. */
  lemma MonthlySumsAddUp(t: Table, start: Option<int>, end: Option<int>, name: string, c: Column)
    requires Lower(name) == "sum"
    requires c.Distance? || c.Litres? || c.TotalCost?
    ensures NumericStatistics(t, start, end, name, true).Success?
    ensures NumericStatistics(t, start, end, name, false).Success?
    ensures AddMonths(NumericStatistics(t, start, end, name, true).value.monthlySums, c)
         == SumOf(NumericStatistics(t, start, end, name, false).value.sums, c)
  {
    MonthlyTotalsAddUp(Selection(t.rows, start, end), c);
  }

  /** Non-monthly average mode returns the selection's means and mean gap. */
  lemma AverageDispatch(t: Table, start: Option<int>, end: Option<int>, name: string)
    requires Lower(name) == "average"
    ensures var s := Selection(t.rows, start, end);
            NumericStatistics(t, start, end, name, false) == Success(Averages(MeanColumns(s), MeanGap(s)))
  {
    assert ParseFunction(name) == Success(Average);
  }

  /** In non-monthly average mode the mean gap is absent for at most one
      selected entry, and otherwise is the span from the first to the last
      selected entry over the number of gaps (non-negative on a date-sorted
      table). */
  lemma AverageGapTelescopes(t: Table, start: Option<int>, end: Option<int>, name: string)
    requires Lower(name) == "average"
    ensures var r := NumericStatistics(t, start, end, name, false);
            var s := Selection(t.rows, start, end);
            && r.Success? && r.value.Averages?
            && (r.value.meanGap.None? <==> |s| <= 1)
            && (r.value.meanGap.Some? ==>
                  r.value.meanGap.value == (Time(s[|s| - 1]) - Time(s[0])) as real / ((|s| - 1) as real))
            && (r.value.meanGap.Some? && SortedByDate(t.rows) ==> r.value.meanGap.value >= 0.0)
  {
    AverageDispatch(t, start, end, name);
    var b := CoerceDates(t.rows, start, end);
    if SortedByDate(t.rows) {
      SelectKeepsOrder(t.rows, b.0, b.1);
    }
  }

  /** A single selected entry: no mean gap, and every mean is that entry's
      own value. */
  lemma SingleEntryAverage(s: seq<Entry>, c: Column)
    requires |s| == 1 && Dated(s[0])
    ensures AverageStats(s, false).meanGap.None?
    ensures MeanPresent(ColumnCells(s, c)) == Cell(s[0], c)
  {
    var xs := ColumnCells(s, c);
    assert xs == [Cell(s[0], c)];
    assert xs[1..] == [];
    var m := MeanPresent(xs);
    if xs[0].Some? {
      var v := xs[0].value;
      assert PresentOf(xs) == [v];
      assert [v][1..] == [];
      assert SumSeq([v]) == v;
      assert m.value == v / 1.0;
      assert m == xs[0];
    } else {
      assert PresentOf(xs) == [];
      assert m.None?;
    }
  }

  /** Non-monthly mode returns every petrol type of the window that occurs
      most often, ties included, and nothing else. */
  lemma ModesAreMostFrequent(t: Table, start: Option<int>, end: Option<int>, name: string)
    requires Lower(name) == "mode" && t.hasPetrolType
    ensures var r := NumericStatistics(t, start, end, name, false);
            var ts := PetrolTypes(Selection(t.rows, start, end));
            && r.Success? && r.value.Modes?
            && forall v :: v in r.value.modes <==> v in ts && forall w :: multiset(ts)[w] <= multiset(ts)[v]
  {
    assert ParseFunction(name) == Success(Mode);
  }

  /** Monthly mode gives, for each month of the window, every petrol type
      that occurs most often in that month. */
  lemma MonthlyModesPerMonth(t: Table, start: Option<int>, end: Option<int>, name: string)
    requires Lower(name) == "mode" && t.hasPetrolType
    ensures var r := NumericStatistics(t, start, end, name, true);
            var s := Selection(t.rows, start, end);
            && r.Success? && r.value.MonthlyModes?
            && |r.value.monthlyModes| == |Months(s)|
            && forall i :: 0 <= i < |Months(s)| ==>
                 && r.value.monthlyModes[i].0 == Months(s)[i]
                 && forall v :: v in r.value.monthlyModes[i].1 <==>
                      v in PetrolTypes(Group(s, Months(s)[i]))
                      && forall w :: multiset(PetrolTypes(Group(s, Months(s)[i])))[w]
                                  <= multiset(PetrolTypes(Group(s, Months(s)[i])))[v]
  {
    assert ParseFunction(name) == Success(Mode);
    var s := Selection(t.rows, start, end);
    assert NumericStatistics(t, start, end, name, true) == Success(MonthlyModes(MonthlyModeSets(s, Months(s))));
  }


  /** Monthly average gives, for each month of the window, each column's
      mean over the present values of that month's rows. */
  lemma MonthlyAveragesPerMonth(t: Table, start: Option<int>, end: Option<int>, name: string, i: int, c: Column)
    requires Lower(name) == "average"
    requires 0 <= i < |Months(Selection(t.rows, start, end))|
    ensures var r := NumericStatistics(t, start, end, name, true);
            var s := Selection(t.rows, start, end);
            var ym := Months(s)[i];
            var vs := PresentOf(ColumnCells(Group(s, ym), c));
            && r.Success? && r.value.MonthlyAverages?
            && |r.value.monthlyMeans| == |Months(s)|
            && r.value.monthlyMeans[i].0 == ym
            && (MeanOf(r.value.monthlyMeans[i].1, c).None? <==> |vs| == 0)
            && (MeanOf(r.value.monthlyMeans[i].1, c).Some? ==>
                  MeanOf(r.value.monthlyMeans[i].1, c).value == SumSeq(vs) / (|vs| as real))
  {
    assert ParseFunction(name) == Success(Average);
    var s := Selection(t.rows, start, end);
    assert NumericStatistics(t, start, end, name, true) == Success(MonthlyAverages(MonthlyMeans(s, Months(s))));
    var g := Group(s, Months(s)[i]);
    assert MeanOf(MeanColumns(g), c) == MeanPresent(ColumnCells(g, c));
  }
}
