/** The application's starting state: an empty commitment ledger and one
    blank yearly row per tracked fiscal year. */
module AppState {
  import opened Records
  import opened CommitmentStore
  import opened YearlyTable

  /** `useState([])` for the commitment rows: an empty ledger, whose
      today view is empty whatever the date. */
  function InitialRows(): (rows: seq<Commitment>)
    ensures |rows| == 0 && UniqueIds(rows)
    ensures forall today: string :: |TodayView(rows, today)| == 0
  {
    []
  }

  /** `{ id: year, year: year, q1: '', q2: '', q3: '', q4: '' }`. */
  function BlankYear(year: string): (r: YearlyRow)
    ensures r.id == year && r.year == year
    ensures forall q: Quarter :: QuarterText(r, q) == ""
  {
    YearlyRow(year, year, "", "", "", "")
  }

  /** `INITIAL_YEARS.map(...)`: one blank row per fiscal year, in the same order. */
  function InitialYearlyData(): (rows: seq<YearlyRow>)
    ensures |rows| == |InitialYears|
    ensures forall i :: 0 <= i < |rows| ==> rows[i] == BlankYear(InitialYears[i])
  {
    seq(|InitialYears|, i requires 0 <= i < |InitialYears| => BlankYear(InitialYears[i]))
  }

  /** The fiscal years are listed once each. */
  lemma InitialYearsDistinct()
    ensures Distinct(InitialYears)
  {
    var marks := seq(|InitialYears|, k requires 0 <= k < |InitialYears| => InitialYears[k][3]);
    assert marks == "543210987";
    forall i, j | 0 <= i < j < |InitialYears|
      ensures InitialYears[i] != InitialYears[j]
    {
      assert marks[i] != marks[j];
    }
  }

  /** The initial grand total is 0: every quarter starts empty. */
  lemma InitialGrandTotalZero()
    ensures GrandTotal(InitialYearlyData()) == 0.0
  {
    var rows := InitialYearlyData();
    forall i | 0 <= i < |rows|
      ensures RowTotal(rows[i]) == 0.0
    {
      BlankRowTotal(rows[i]);
    }
  }

  /** Nine rows, keyed by their year, with distinct ids and a zero grand total. */
  lemma InitialStateShape()
    ensures |InitialRows()| == 0
    ensures |InitialYearlyData()| == 9
    ensures forall i :: 0 <= i < 9 ==> InitialYearlyData()[i].id == InitialYearlyData()[i].year == InitialYears[i]
    ensures UniqueYearIds(InitialYearlyData())
    ensures GrandTotal(InitialYearlyData()) == 0.0
  {
    var rows := InitialYearlyData();
    InitialYearsDistinct();
    assert forall i :: 0 <= i < |rows| ==> rows[i].id == InitialYears[i];
    InitialGrandTotalZero();
  }
}
