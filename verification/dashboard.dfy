/** The executive dashboard's figures: its own fold of the quarter values,
    progress toward the fixed recovery target, the three status buckets,
    and the choice of compact currency notation. */
module Dashboard {
  import opened Seqs
  import opened Records
  import opened CommitmentStore
  import opened YearlyTable

  /** The recovery target, 4 crore rupees. */
  const Target: real := 40000000.0

  /** The dashboard's `reduce`: each row adds its four parsed quarters to the
      running sum one at a time. */
  function DashboardTotal(rows: seq<YearlyRow>): (t: real)
    ensures t == GrandTotal(rows)
  {
    if |rows| == 0 then 0.0
    else
      var row := rows[|rows| - 1];
      DashboardTotal(rows[..|rows| - 1])
        + QuarterValue(row, Q1) + QuarterValue(row, Q2) + QuarterValue(row, Q3) + QuarterValue(row, Q4)
  }

  /** `Math.min((total / TARGET_AMOUNT) * 100, 100)`. */
  function Progress(total: real): (r: real)
    ensures r <= 100.0
    ensures total >= Target ==> r == 100.0
    ensures total < Target ==> r == total * 100.0 / Target && r < 100.0
    ensures 0.0 <= total ==> 0.0 <= r
  {
    var raw := total / Target * 100.0;
    if raw < 100.0 then raw else 100.0
  }

  /** A larger total never shows less progress. */
  lemma ProgressMonotone(a: real, b: real)
    requires a <= b
    ensures Progress(a) <= Progress(b)
  {
  }

  /** The progress is not clamped from below: a negative total, which
      negative quarter text produces, shows a negative percentage. */
  lemma ProgressNegative(total: real)
    requires total < 0.0
    ensures Progress(total) < 0.0
  {
  }

  /** A total of 4.5 crore shows 100%, not 112.5%. */
  lemma ProgressClampsExample()
    ensures Progress(45000000.0) == 100.0
    ensures 45000000.0 / Target * 100.0 == 112.5
  {
  }

  /** The dashboard shows the yearly table's grand total, and full progress once it reaches the target. */
  lemma OverTargetTableShowsFull(rows: seq<YearlyRow>)
    ensures DashboardTotal(rows) == GrandTotal(rows)
    ensures GrandTotal(rows) >= Target ==> Progress(DashboardTotal(rows)) == 100.0
  {
  }

  predicate IsActive(c: Commitment) {
    c.status == Pending || c.status == PartialPayment
  }

  predicate IsCritical(c: Commitment) {
    c.status == FakeCommitment || c.status == Dishonored
  }

  predicate IsCollected(c: Commitment) {
    c.status == NoDues
  }

  /** "Active Commitments": pending or partially paid. */
  function ActiveCount(rows: seq<Commitment>): (n: nat)
    ensures n == Count(rows, IsActive) && n <= |rows|
  {
    |Filter(rows, IsActive)|
  }

  /** "Critical Issues": fake commitments and dishonoured promises. */
  function CriticalCount(rows: seq<Commitment>): (n: nat)
    ensures n == Count(rows, IsCritical) && n <= |rows|
  {
    |Filter(rows, IsCritical)|
  }

  /** "Cases Solved": dues cleared. */
  function CollectedCount(rows: seq<Commitment>): (n: nat)
    ensures n == Count(rows, IsCollected) && n <= |rows|
  {
    |Filter(rows, IsCollected)|
  }

  /** Which bucket a single row lands in, by its status. */
  lemma CountsOfOneRow(c: Commitment)
    ensures ActiveCount([c]) == (if c.status == Pending || c.status == PartialPayment then 1 else 0)
    ensures CriticalCount([c]) == (if c.status == FakeCommitment || c.status == Dishonored then 1 else 0)
    ensures CollectedCount([c]) == (if c.status == NoDues then 1 else 0)
  {
    assert [c][1..] == [];
  }

  /** Appending a row adds it to its bucket and leaves the other two alone. */
  lemma CountsOfAppend(rows: seq<Commitment>, c: Commitment)
    ensures ActiveCount(rows + [c]) == ActiveCount(rows) + ActiveCount([c])
    ensures CriticalCount(rows + [c]) == CriticalCount(rows) + CriticalCount([c])
    ensures CollectedCount(rows + [c]) == CollectedCount(rows) + CollectedCount([c])
  {
    CountAppend(rows, [c], IsActive);
    CountAppend(rows, [c], IsCritical);
    CountAppend(rows, [c], IsCollected);
  }

  /** The three buckets split the five statuses, so every row is counted exactly once. */
  lemma CountsCoverAllRows(rows: seq<Commitment>)
    ensures ActiveCount(rows) + CriticalCount(rows) + CollectedCount(rows) == |rows|
  {
    CountPartition3(rows, IsActive, IsCritical, IsCollected);
  }

  /** Editing a text field of a row moves no row between buckets. */
  lemma TextEditKeepsCounts(rows: seq<Commitment>, id: string, f: TextField, text: string)
    ensures var r := UpdateRow(rows, id, SetText(f, text));
            && ActiveCount(r) == ActiveCount(rows)
            && CriticalCount(r) == CriticalCount(rows)
            && CollectedCount(r) == CollectedCount(rows)
  {
    var r := UpdateRow(rows, id, SetText(f, text));
    assert forall i :: 0 <= i < |rows| ==> r[i].status == rows[i].status;
    CountPointwise(r, IsActive, rows, IsActive);
    CountPointwise(r, IsCritical, rows, IsCritical);
    CountPointwise(r, IsCollected, rows, IsCollected);
  }

  datatype Notation = Standard | Compact

  /** The dashboard's number notation: compact ("₹4 Cr") above one lakh. */
  function NotationFor(v: real): (n: Notation)
    ensures n == Compact <==> v > 100000.0
  {
    if v > 100000.0 then Compact else Standard
  }

  /** Once a value is shown compact, every larger value is too. */
  lemma CompactIsUpwardClosed(a: real, b: real)
    requires a <= b && NotationFor(a) == Compact
    ensures NotationFor(b) == Compact
  {
  }
}
