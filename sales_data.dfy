/** The sales table: raw CSV records, the cleaning applied before training,
    and the per-column aggregates the service reads back from the cleaned
    table (year range, means). Models app.py lines 17-28 and 86-92. */
module SalesData {
  import opened Wrappers

  /** One CSV record as read; a field is None where the cell was empty (NaN). */
  datatype RawRow = RawRow(
    platform: Option<string>,
    year: Option<int>,
    genre: Option<string>,
    publisher: Option<string>,
    naSales: Option<real>,
    euSales: Option<real>,
    jpSales: Option<real>,
    otherSales: Option<real>,
    globalSales: Option<real>)

  /** One record of the cleaned table: every field present. */
  datatype Row = Row(
    platform: string,
    year: int,
    genre: string,
    publisher: string,
    naSales: real,
    euSales: real,
    jpSales: real,
    otherSales: real,
    globalSales: real)

  /** The four regional sales columns. */
  datatype Region = NA | EU | JP | Other

  function Sales(r: Row, g: Region): real {
    match g
    case NA => r.naSales
    case EU => r.euSales
    case JP => r.jpSales
    case Other => r.otherSales
  }

  /** A record with no missing cell. */
  predicate Complete(r: RawRow) {
    && r.platform.Some? && r.year.Some? && r.genre.Some? && r.publisher.Some?
    && r.naSales.Some? && r.euSales.Some? && r.jpSales.Some? && r.otherSales.Some?
    && r.globalSales.Some?
  }

  function ToRow(r: RawRow): Row
    requires Complete(r)
  {
    Row(r.platform.value, r.year.value, r.genre.value, r.publisher.value,
        r.naSales.value, r.euSales.value, r.jpSales.value, r.otherSales.value,
        r.globalSales.value)
  }

  /** `dropna(subset=["Global_Sales"])`: the first cleaning pass. */
  function DropMissingGlobal(raw: seq<RawRow>): (kept: seq<RawRow>)
    ensures |kept| <= |raw|
    ensures forall r :: r in kept ==> r in raw && r.globalSales.Some?
    ensures forall r :: r in raw && r.globalSales.Some? ==> r in kept
  {
    if raw == [] then []
    else (if raw[0].globalSales.Some? then [raw[0]] else []) + DropMissingGlobal(raw[1..])
  }

  /** `dropna()`: the second pass, which keeps the records with no missing cell. */
  function DropMissing(raw: seq<RawRow>): (rows: seq<Row>)
    ensures |rows| <= |raw|
    ensures forall r :: r in raw && Complete(r) ==> ToRow(r) in rows
    ensures forall x :: x in rows ==> exists r :: r in raw && Complete(r) && ToRow(r) == x
  {
    if raw == [] then []
    else (if Complete(raw[0]) then [ToRow(raw[0])] else []) + DropMissing(raw[1..])
  }

  /** The table the service trains on and keeps as DATA_DF. */
  function Clean(raw: seq<RawRow>): seq<Row> {
    DropMissing(DropMissingGlobal(raw))
  }

  /** Cleaning works record by record, so it keeps the original order:
      cleaning a concatenation is the concatenation of the cleaned parts. */
  lemma {:induction false} DropMissingAppend(a: seq<RawRow>, b: seq<RawRow>)
    ensures DropMissing(a + b) == DropMissing(a) + DropMissing(b)
    decreases |a|
  {
    if a == [] {
      assert a + b == b;
    } else {
      assert (a + b)[0] == a[0];
      assert (a + b)[1..] == a[1..] + b;
      var head := if Complete(a[0]) then [ToRow(a[0])] else [];
      assert DropMissing(a + b) == head + DropMissing(a[1..] + b);
      assert DropMissing(a) == head + DropMissing(a[1..]);
      DropMissingAppend(a[1..], b);
    }
  }

  /** The first pass is subsumed by the second: the two-pass cleaning keeps
      exactly the complete records, in their original order. */
  lemma {:induction false} CleanKeepsCompleteRows(raw: seq<RawRow>)
    ensures Clean(raw) == DropMissing(raw)
    ensures forall r :: r in raw && Complete(r) ==> ToRow(r) in Clean(raw)
    ensures forall x :: x in Clean(raw) ==> exists r :: r in raw && Complete(r) && ToRow(r) == x
    decreases |raw|
  {
    if raw != [] {
      CleanKeepsCompleteRows(raw[1..]);
      var head := if raw[0].globalSales.Some? then [raw[0]] else [];
      assert DropMissingGlobal(raw) == head + DropMissingGlobal(raw[1..]);
      DropMissingAppend(head, DropMissingGlobal(raw[1..]));
      if raw[0].globalSales.Some? {
        assert DropMissing(head) == (if Complete(raw[0]) then [ToRow(raw[0])] else []) + DropMissing([]);
      } else {
        assert !Complete(raw[0]);
      }
    }
  }

  // ---------------------------------------------------------------------
  // Year range (get_years)

  function MinYear(rows: seq<Row>): (m: int)
    requires rows != []
    ensures exists r :: r in rows && r.year == m
    ensures forall r :: r in rows ==> m <= r.year
  {
    if |rows| == 1 then rows[0].year
    else
      var rest := MinYear(rows[1..]);
      if rows[0].year <= rest then rows[0].year else rest
  }

  function MaxYear(rows: seq<Row>): (m: int)
    requires rows != []
    ensures exists r :: r in rows && r.year == m
    ensures forall r :: r in rows ==> r.year <= m
  {
    if |rows| == 1 then rows[0].year
    else
      var rest := MaxYear(rows[1..]);
      if rows[0].year >= rest then rows[0].year else rest
  }

  /** The years offered for prediction: every year from the earliest
      observed one to twenty years past the latest, `range(min, max + 21)`. */
  function YearRange(rows: seq<Row>): seq<int>
    requires rows != []
  {
    seq(MaxYear(rows) + 21 - MinYear(rows), i => MinYear(rows) + i)
  }

  /** The year list is strictly ascending without gaps, starts at the
      earliest observed year, ends twenty years after the latest, holds
      exactly the years in between, and so covers every observed year. */
  lemma YearRangeSpec(rows: seq<Row>)
    requires rows != []
    ensures var ys := YearRange(rows);
      && |ys| == MaxYear(rows) - MinYear(rows) + 21
      && ys[0] == MinYear(rows)
      && ys[|ys| - 1] == MaxYear(rows) + 20
      && (forall i :: 0 <= i < |ys| - 1 ==> ys[i + 1] == ys[i] + 1)
      && (forall i, j :: 0 <= i < j < |ys| ==> ys[i] < ys[j])
      && (forall y :: y in ys <==> MinYear(rows) <= y <= MaxYear(rows) + 20)
      && (forall r :: r in rows ==> r.year in ys)
  {
    var ys := YearRange(rows);
    var lo := MinYear(rows);
    forall y | lo <= y <= MaxYear(rows) + 20
      ensures y in ys
    {
      assert ys[y - lo] == y;
    }
  }

  // ---------------------------------------------------------------------
  // Column sums and means

  function TotalSales(rows: seq<Row>, g: Region): real {
    if rows == [] then 0.0 else Sales(rows[0], g) + TotalSales(rows[1..], g)
  }

  /** pandas' `mean()` of a regional column. */
  function MeanSales(rows: seq<Row>, g: Region): real
    requires rows != []
  {
    TotalSales(rows, g) / |rows| as real
  }

  function TotalYears(rows: seq<Row>): int {
    if rows == [] then 0 else rows[0].year + TotalYears(rows[1..])
  }

  /** `DATA_DF["Year"].mean()`. */
  function MeanYear(rows: seq<Row>): real
    requires rows != []
  {
    TotalYears(rows) as real / |rows| as real
  }

  lemma {:induction false} TotalYearsBounds(rows: seq<Row>, lo: int, hi: int)
    requires forall r :: r in rows ==> lo <= r.year <= hi
    ensures |rows| * lo <= TotalYears(rows) <= |rows| * hi
    decreases |rows|
  {
    if rows != [] {
      var n := |rows| - 1;
      TotalYearsBounds(rows[1..], lo, hi);
      assert rows[0] in rows;
      assert n * lo + lo == |rows| * lo && n * hi + hi == |rows| * hi;
    }
  }

  /** The mean year lies within the observed range. */
  lemma MeanYearWithinRange(rows: seq<Row>)
    requires rows != []
    ensures MinYear(rows) as real <= MeanYear(rows) <= MaxYear(rows) as real
  {
    TotalYearsBounds(rows, MinYear(rows), MaxYear(rows));
    IntQuotientBounds(TotalYears(rows), |rows|, MinYear(rows), MaxYear(rows));
  }

  lemma IntQuotientBounds(t: int, n: int, lo: int, hi: int)
    requires n > 0 && n * lo <= t <= n * hi
    ensures lo as real <= t as real / n as real <= hi as real
  {
    assert (n * lo) as real == n as real * lo as real;
    assert (n * hi) as real == n as real * hi as real;
    QuotientBounds(t as real, n as real, lo as real, hi as real);
  }

  lemma QuotientBounds(total: real, n: real, lo: real, hi: real)
    requires n > 0.0 && n * lo <= total <= n * hi
    ensures lo <= total / n <= hi
  {
    assert total / n * n == total;
  }

  /** Every regional mean lies between the smallest and largest figure of
      that column: a mean, not some other aggregate. */
  lemma {:induction false} TotalSalesBounds(rows: seq<Row>, g: Region, lo: real, hi: real)
    requires forall r :: r in rows ==> lo <= Sales(r, g) <= hi
    ensures |rows| as real * lo <= TotalSales(rows, g) <= |rows| as real * hi
    decreases |rows|
  {
    if rows != [] {
      var n := (|rows| - 1) as real;
      TotalSalesBounds(rows[1..], g, lo, hi);
      assert rows[0] in rows;
      assert n * lo + lo == |rows| as real * lo && n * hi + hi == |rows| as real * hi;
    }
  }

  lemma MeanSalesBounds(rows: seq<Row>, g: Region, lo: real, hi: real)
    requires rows != []
    requires forall r :: r in rows ==> lo <= Sales(r, g) <= hi
    ensures lo <= MeanSales(rows, g) <= hi
  {
    TotalSalesBounds(rows, g, lo, hi);
    QuotientBounds(TotalSales(rows, g), |rows| as real, lo, hi);
  }
}
