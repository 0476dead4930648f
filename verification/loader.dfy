/** Post-processing of a freshly read CSV table: the required-column check,
    the sort by date and the three derived ratio columns.

    Reading the file and parsing its cells are not modelled: a row arrives
    with every cell already parsed, a cell that failed to parse being `None`.
 */
module Loader {
  import opened Values
  import opened Entries

  const RequiredColumns: seq<string> := ["Date", "Distance", "PetrolFilled(Litres)", "TotalCost"]

  /** A CSV row after date and number coercion (no derived columns yet). */
  datatype RawRow = RawRow(
    date: Option<Instant>,
    distance: Option<real>,
    litres: Option<real>,
    totalCost: Option<real>,
    petrolType: Option<string>
  )

  /** The columns of `cols` that the header lacks, in the order of `cols`. */
  function AbsentFrom(cols: seq<string>, header: seq<string>): (r: seq<string>)
    ensures forall c :: c in r <==> c in cols && c !in header
    ensures IsSubsequence(r, cols)
  {
    if |cols| == 0 then []
    else
      var rest := AbsentFrom(cols[1..], header);
      assert cols == [cols[0]] + cols[1..];
      if cols[0] in header then
        assert |rest| > 0 ==> rest[0] != cols[0] by {
          if |rest| > 0 {
            assert rest[0] in rest;
          }
        }
        rest
      else
        assert ([cols[0]] + rest)[1..] == rest;
        [cols[0]] + rest
  }

  /** The required columns the header lacks, in required-column order. */
  function MissingRequired(header: seq<string>): (r: seq<string>)
    ensures forall c :: c in r <==> c in RequiredColumns && c !in header
    ensures IsSubsequence(r, RequiredColumns)
  {
    AbsentFrom(RequiredColumns, header)
  }

  /** Attaches the three ratio columns to a parsed row. */
  function Attach(row: RawRow): (e: Entry)
    ensures e.date == row.date && e.distance == row.distance && e.litres == row.litres
    ensures e.totalCost == row.totalCost && e.petrolType == row.petrolType
    ensures e.petrolPrice.Some? <==> row.totalCost.Some? && row.litres.Some? && row.litres.value != 0.0
    ensures e.petrolPrice.Some? ==> e.petrolPrice.value * row.litres.value == row.totalCost.value
    ensures e.kilometrage.Some? <==> row.litres.Some? && row.distance.Some? && row.distance.value != 0.0
    ensures e.kilometrage.Some? ==> e.kilometrage.value * row.distance.value == 100.0 * row.litres.value
    ensures e.costPerKilometre.Some? <==> row.totalCost.Some? && row.distance.Some? && row.distance.value != 0.0
    ensures e.costPerKilometre.Some? ==> e.costPerKilometre.value * row.distance.value == row.totalCost.value
  {
    var km := Scale(Div(row.litres, row.distance), 100.0);
    PerHundred(row.litres, row.distance);
    Entry(row.date, row.distance, row.litres, row.totalCost, row.petrolType,
          Div(row.totalCost, row.litres),
          km,
          Div(row.totalCost, row.distance))
  }

  /** Litres per 100 km times the distance is a hundred times the litres. */
  lemma PerHundred(litres: Option<real>, distance: Option<real>)
    ensures var km := Scale(Div(litres, distance), 100.0);
      km.Some? ==> km.value * distance.value == 100.0 * litres.value
  {
    var q := Div(litres, distance);
    if q.Some? {
      assert q.value * distance.value == litres.value;
      calc {
        (q.value * 100.0) * distance.value;
        100.0 * (q.value * distance.value);
      }
    }
  }

  function AttachAll(rows: seq<RawRow>): (r: seq<Entry>)
    ensures |r| == |rows|
    ensures forall i :: 0 <= i < |rows| ==> r[i] == Attach(rows[i])
  {
    if |rows| == 0 then [] else [Attach(rows[0])] + AttachAll(rows[1..])
  }

  /** `load_data` after the CSV has been read: fails when a required column
      is absent, otherwise sorts by date and attaches the ratio columns.
      Rows are never dropped, whatever their cells failed to parse. */
  function LoadData(header: seq<string>, rows: seq<RawRow>): (r: Result<Table, Error>)
    ensures r.Failure? <==> exists i :: 0 <= i < |RequiredColumns| && RequiredColumns[i] !in header
    ensures r.Failure? ==> r.error == MissingColumns(MissingRequired(header))
    ensures r.Success? ==> SortedByDate(r.value.rows)
    ensures r.Success? ==> multiset(r.value.rows) == multiset(AttachAll(rows))
    ensures r.Success? ==> |r.value.rows| == |rows|
    ensures r.Success? ==> (r.value.hasPetrolType <==> "PetrolType" in header)
  {
    var missing := MissingRequired(header);
    if |missing| > 0 then
      assert missing[0] in missing;
      Failure(MissingColumns(missing))
    else
      assert forall i :: 0 <= i < |RequiredColumns| ==> RequiredColumns[i] !in missing;
      Success(Table(SortByDate(AttachAll(rows)), "PetrolType" in header))
  }

  /** When every operand is present and no divisor is zero, the cost per
      kilometre is the price per litre times the litres per 100 km over 100. */
  lemma RatioIdentity(row: RawRow)
    requires row.distance.Some? && row.litres.Some? && row.totalCost.Some?
    requires row.distance.value != 0.0 && row.litres.value != 0.0
    ensures var e := Attach(row);
      e.costPerKilometre.value == e.petrolPrice.value * e.kilometrage.value / 100.0
  {
    var e := Attach(row);
    var d, l, c := row.distance.value, row.litres.value, row.totalCost.value;
    assert e.petrolPrice.value == c / l;
    assert e.kilometrage.value == l / d * 100.0;
    assert e.costPerKilometre.value == c / d;
    calc {
      e.petrolPrice.value * e.kilometrage.value / 100.0;
      (c / l) * (l / d * 100.0) / 100.0;
      { assert (c / l) * (l / d) == c / d by { assert (c / l) * l == c; } }
      c / d;
    }
  }
}
