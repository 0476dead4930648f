/** The table shape shared by the loader, the statistics engine and the
    chart preparation: one `Entry` per fuel purchase, indexed by date.
 */
module Entries {
  import opened Values

  /** Calendar year-month key (the `to_period("M")` bucket of a date). */
  datatype YearMonth = YearMonth(year: int, month: int)

  /** A parsed timestamp: seconds since the epoch, together with the
      calendar month it falls in. */
  datatype Instant = Instant(seconds: int, month: YearMonth)

  /** One fuel purchase. The first five fields are the parsed CSV cells;
      the last three are the ratio columns the loader derives. */
  datatype Entry = Entry(
    date: Option<Instant>,          // Date (the index); None is NaT
    distance: Option<real>,         // Distance
    litres: Option<real>,           // PetrolFilled(Litres)
    totalCost: Option<real>,        // TotalCost
    petrolType: Option<string>,     // PetrolType
    petrolPrice: Option<real>,      // PetrolPrice(PerLitre)
    kilometrage: Option<real>,      // Kilometrage(L/100km)
    costPerKilometre: Option<real>  // CostPerKilometre
  )

  /** A loaded table: its rows and whether the optional PetrolType column
      exists at all. */
  datatype Table = Table(rows: seq<Entry>, hasPetrolType: bool)

  /** The numeric columns the statistics engine reads. */
  datatype Column = Distance | Litres | TotalCost | PetrolPrice | Kilometrage | CostPerKilometre

  /** The raised errors: the loader's and the engine's ValueErrors and the
      KeyError of a missing column. */
  datatype Error =
    | MissingColumns(columns: seq<string>)
    | InvalidFunction
    | ColumnNotFound(column: string)

  const SecondsPerDay: int := 86400

  function Cell(e: Entry, c: Column): Option<real>
  {
    match c
    case Distance => e.distance
    case Litres => e.litres
    case TotalCost => e.totalCost
    case PetrolPrice => e.petrolPrice
    case Kilometrage => e.kilometrage
    case CostPerKilometre => e.costPerKilometre
  }

  predicate Dated(e: Entry)
  {
    e.date.Some?
  }

  function Time(e: Entry): int
    requires Dated(e)
  {
    e.date.value.seconds
  }

  function MonthOf(e: Entry): YearMonth
    requires Dated(e)
  {
    e.date.value.month
  }

  /** Calendar day number of a timestamp (floor of seconds over a day). */
  function Day(seconds: int): int
  {
    seconds / SecondsPerDay
  }

  /** Index order: dated entries by time, NaT entries after all dated ones. */
  predicate DateLe(a: Entry, b: Entry)
  {
    if !Dated(a) then !Dated(b)
    else !Dated(b) || Time(a) <= Time(b)
  }

  predicate SortedByDate(s: seq<Entry>)
  {
    forall i, j :: 0 <= i < j < |s| ==> DateLe(s[i], s[j])
  }

  /** The dated rows, in table order. */
  function DatedRows(s: seq<Entry>): (r: seq<Entry>)
    ensures forall i :: 0 <= i < |r| ==> Dated(r[i])
    ensures forall e :: multiset(r)[e] == if Dated(e) then multiset(s)[e] else 0
  {
    if |s| == 0 then []
    else
      assert s == [s[0]] + s[1..];
      (if Dated(s[0]) then [s[0]] else []) + DatedRows(s[1..])
  }

  /** The table's minimum date (`index.min()`); None when no row is dated. */
  function EarliestDate(s: seq<Entry>): (r: Option<int>)
    ensures r.None? <==> forall i :: 0 <= i < |s| ==> !Dated(s[i])
    ensures r.Some? ==> exists i :: 0 <= i < |s| && Dated(s[i]) && Time(s[i]) == r.value
    ensures r.Some? ==> forall i :: 0 <= i < |s| && Dated(s[i]) ==> r.value <= Time(s[i])
  {
    if |s| == 0 then None
    else
      var rest := EarliestDate(s[1..]);
      if !Dated(s[0]) then rest
      else if rest.Some? && rest.value < Time(s[0]) then rest
      else Some(Time(s[0]))
  }

  /** The table's maximum date (`index.max()`); None when no row is dated. */
  function LatestDate(s: seq<Entry>): (r: Option<int>)
    ensures r.None? <==> forall i :: 0 <= i < |s| ==> !Dated(s[i])
    ensures r.Some? ==> exists i :: 0 <= i < |s| && Dated(s[i]) && Time(s[i]) == r.value
    ensures r.Some? ==> forall i :: 0 <= i < |s| && Dated(s[i]) ==> Time(s[i]) <= r.value
  {
    if |s| == 0 then None
    else
      var rest := LatestDate(s[1..]);
      if !Dated(s[0]) then rest
      else if rest.Some? && rest.value > Time(s[0]) then rest
      else Some(Time(s[0]))
  }

  /** `sort_index()`: ascending by date, NaT last. */
  function SortByDate(s: seq<Entry>): (r: seq<Entry>)
    ensures SortedByDate(r)
    ensures multiset(r) == multiset(s)
    ensures |r| == |s|
  {
    if |s| == 0 then []
    else
      assert s == [s[0]] + s[1..];
      Insert(s[0], SortByDate(s[1..]))
  }

  /** Inserts `x` into a date-sorted sequence, keeping it sorted. */
  function Insert(x: Entry, s: seq<Entry>): (r: seq<Entry>)
    requires SortedByDate(s)
    ensures SortedByDate(r)
    ensures multiset(r) == multiset{x} + multiset(s)
    ensures |r| == |s| + 1
  {
    if |s| == 0 then [x]
    else if DateLe(x, s[0]) then
      PrependSorted(x, s);
      [x] + s
    else
      assert s == [s[0]] + s[1..];
      var tail := Insert(x, s[1..]);
      forall y | y in tail
        ensures DateLe(s[0], y)
      {
        assert y in multiset(tail);
      }
      PrependSorted(s[0], tail);
      [s[0]] + tail
  }

  /** Prepending an element no later than every element keeps a sequence sorted. */
  lemma PrependSorted(x: Entry, s: seq<Entry>)
    requires SortedByDate(s)
    requires forall y :: y in s ==> DateLe(x, y)
    ensures SortedByDate([x] + s)
  {
    var r := [x] + s;
    forall i, j | 0 <= i < j < |r|
      ensures DateLe(r[i], r[j])
    {
      if i == 0 {
        assert r[j] == s[j - 1];
        assert r[j] in s;
      } else {
        assert r[i] == s[i - 1] && r[j] == s[j - 1];
      }
    }
  }
}
