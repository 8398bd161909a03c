/** The fiscal-year table: in-place quarter edits, row and grand totals over
    the parsed quarter texts, and the zero-to-dash display rule. */
module YearlyTable {
  import opened Seqs
  import opened JsText
  import opened Records

  /** `{ ...row, [q]: value }`. */
  function SetQuarter(row: YearlyRow, q: Quarter, value: string): (r: YearlyRow)
    ensures r.id == row.id && r.year == row.year
    ensures QuarterText(r, q) == value
    ensures forall p: Quarter :: p != q ==> QuarterText(r, p) == QuarterText(row, p)
  {
    match q
    case Q1 => row.(q1 := value)
    case Q2 => row.(q2 := value)
    case Q3 => row.(q3 := value)
    case Q4 => row.(q4 := value)
  }

  function YearIds(rows: seq<YearlyRow>): (ids: seq<string>)
    ensures |ids| == |rows|
    ensures forall i :: 0 <= i < |rows| ==> ids[i] == rows[i].id
  {
    seq(|rows|, i requires 0 <= i < |rows| => rows[i].id)
  }

  /** `handleYearChange(id, q, value)`: the quarter of the row carrying `id`
      is replaced; nothing else changes and nothing moves. */
  function EditQuarter(rows: seq<YearlyRow>, id: string, q: Quarter, value: string): (r: seq<YearlyRow>)
    ensures |r| == |rows| && YearIds(r) == YearIds(rows)
    ensures forall i :: 0 <= i < |rows| ==> r[i].year == rows[i].year
    ensures forall i :: 0 <= i < |rows| && rows[i].id == id ==>
              QuarterText(r[i], q) == value
              && forall p: Quarter :: p != q ==> QuarterText(r[i], p) == QuarterText(rows[i], p)
    ensures forall i :: 0 <= i < |rows| && rows[i].id != id ==> r[i] == rows[i]
    ensures id !in YearIds(rows) ==> r == rows
  {
    seq(|rows|, i requires 0 <= i < |rows| => if rows[i].id == id then SetQuarter(rows[i], q, value) else rows[i])
  }

  /** What a quarter contributes to a total: its parsed value, 0 when empty or unparseable. */
  function QuarterValue(row: YearlyRow, q: Quarter): real {
    NumberOrZero(QuarterText(row, q))
  }

  /** `getRowTotal(row)`: quarters holding no number count as 0. */
  function RowTotal(row: YearlyRow): (t: real)
    ensures (forall q: Quarter :: !StartsLiteral(AfterSign(TrimStart(QuarterText(row, q))))) ==> t == 0.0
  {
    QuarterValue(row, Q1) + QuarterValue(row, Q2) + QuarterValue(row, Q3) + QuarterValue(row, Q4)
  }

  /** `yearlyData.reduce((sum, row) => sum + getRowTotal(row), 0)`. */
  function GrandTotal(rows: seq<YearlyRow>): (t: real)
    ensures (forall i :: 0 <= i < |rows| ==> RowTotal(rows[i]) == 0.0) ==> t == 0.0
  {
    Sum(rows, RowTotal)
  }

  /** Changing one quarter of a row moves its total by that quarter's change. */
  lemma RowTotalOfEdit(row: YearlyRow, q: Quarter, value: string)
    ensures RowTotal(SetQuarter(row, q, value)) == RowTotal(row) - QuarterValue(row, q) + NumberOrZero(value)
  {
    var r := SetQuarter(row, q, value);
    assert forall p: Quarter :: p != q ==> QuarterValue(r, p) == QuarterValue(row, p);
  }

  /** A row with four empty quarters totals 0. */
  lemma BlankRowTotal(row: YearlyRow)
    requires row.q1 == "" && row.q2 == "" && row.q3 == "" && row.q4 == ""
    ensures RowTotal(row) == 0.0
  {
    assert TrimStart("") == "";
    assert DigitRun("") == 0;
  }

  lemma EmptyTextIsZero()
    ensures NumberOrZero("") == 0.0
  {
    assert TrimStart("") == "";
    assert DigitRun("") == 0;
  }

  lemma WordTextIsZero()
    ensures NumberOrZero("abc") == 0.0
  {
    assert TrimStart("abc") == "abc";
  }

  lemma MillionText()
    ensures NumberOrZero("1000000") == 1000000.0
  {
    assert NatToText(1000000) == "1000000";
    IntToTextRoundTrip(1000000);
  }

  lemma HalfMillionText()
    ensures NumberOrZero("500000") == 500000.0
  {
    assert NatToText(500000) == "500000";
    IntToTextRoundTrip(500000);
  }

  lemma MinusFiveText()
    ensures NumberOrZero("-5") == -5.0
  {
    assert IntToText(-5) == "-5";
    IntToTextRoundTrip(-5);
  }

  lemma RowTotalOfValues(row: YearlyRow, v1: real, v2: real, v3: real, v4: real)
    requires NumberOrZero(row.q1) == v1 && NumberOrZero(row.q2) == v2
    requires NumberOrZero(row.q3) == v3 && NumberOrZero(row.q4) == v4
    ensures RowTotal(row) == v1 + v2 + v3 + v4
  {
  }

  /** The worked example: "1000000", "", "500000", "abc" total 1,500,000. */
  lemma RowTotalExample(row: YearlyRow)
    requires row.q1 == "1000000" && row.q2 == "" && row.q3 == "500000" && row.q4 == "abc"
    ensures RowTotal(row) == 1500000.0
  {
    MillionText();
    HalfMillionText();
    EmptyTextIsZero();
    WordTextIsZero();
    RowTotalOfValues(row, 1000000.0, 0.0, 500000.0, 0.0);
  }

  /** Negative quarter text counts with its sign: writing the negative
      integer `n` into a quarter moves the row total by exactly `n`
      against an empty quarter, so totals are not clamped at 0. */
  lemma NegativeQuarterCounts(row: YearlyRow, q: Quarter, n: int)
    requires n < 0
    ensures RowTotal(SetQuarter(row, q, IntToText(n))) == RowTotal(row) - QuarterValue(row, q) + n as real
    ensures RowTotal(SetQuarter(row, q, IntToText(n))) < RowTotal(SetQuarter(row, q, ""))
  {
    RowTotalOfEdit(row, q, IntToText(n));
    RowTotalOfEdit(row, q, "");
    IntToTextRoundTrip(n);
    EmptyTextIsZero();
  }

  /** The worked example: "-5" in the first quarter of an otherwise empty row totals -5. */
  lemma MinusFiveRowTotal(row: YearlyRow)
    requires row.q1 == "-5" && row.q2 == "" && row.q3 == "" && row.q4 == ""
    ensures RowTotal(row) == -5.0
  {
    MinusFiveText();
    EmptyTextIsZero();
    RowTotalOfValues(row, -5.0, 0.0, 0.0, 0.0);
  }

  /** The grand total is 0 for no rows and additive over concatenation. */
  lemma GrandTotalAppend(a: seq<YearlyRow>, b: seq<YearlyRow>)
    ensures GrandTotal([]) == 0.0
    ensures GrandTotal(a + b) == GrandTotal(a) + GrandTotal(b)
  {
    SumAppend(a, b, RowTotal);
  }

  /** No two years share an id. */
  predicate UniqueYearIds(rows: seq<YearlyRow>) {
    Distinct(YearIds(rows))
  }

  /** With unique ids, editing one quarter moves the grand total by exactly
      the change in that quarter's parsed value. */
  lemma GrandTotalOfEdit(rows: seq<YearlyRow>, id: string, q: Quarter, value: string, k: nat)
    requires UniqueYearIds(rows)
    requires k < |rows| && rows[k].id == id
    ensures GrandTotal(EditQuarter(rows, id, q, value))
            == GrandTotal(rows) - QuarterValue(rows[k], q) + NumberOrZero(value)
  {
    var r := EditQuarter(rows, id, q, value);
    assert r[k] == SetQuarter(rows[k], q, value);
    forall i | 0 <= i < |rows| && i != k
      ensures r[i] == rows[i]
    {
      assert YearIds(rows)[i] != YearIds(rows)[k];
    }
    RowTotalOfEdit(rows[k], q, value);
    SumPointwise(rows, r, RowTotal, k);
  }

  /** Editing a year that is not in the table leaves the total alone. */
  lemma GrandTotalOfAbsentEdit(rows: seq<YearlyRow>, id: string, q: Quarter, value: string)
    requires id !in YearIds(rows)
    ensures GrandTotal(EditQuarter(rows, id, q, value)) == GrandTotal(rows)
  {
  }

  /** The rupee sign. */
  const Rupee: char := '\U{20B9}'

  /** The header's replacement for the dash, as the source spells it: the
      UTF-8 bytes of "₹0" read as Windows-1252 characters. */
  const HeaderZero: string := "\U{E2}\U{201A}\U{B9}0"

  /** A locale currency rendering: a minus sign for negatives, the rupee
      sign, then the grouped, rounded magnitude, which is supplied. */
  function CurrencyText(v: real, magnitude: string): (r: string)
    ensures Rupee in r
    ensures '-' !in magnitude ==> ('-' in r <==> v < 0.0)
  {
    (if v < 0.0 then "-" else "") + [Rupee] + magnitude
  }

  /** `formatCurrency(val)` of the yearly table: zero shows as a dash. */
  function FormatCurrency(v: real, magnitude: string): (r: string)
    requires '-' !in magnitude
    ensures r == "-" <==> v == 0.0
    ensures v != 0.0 ==> ('-' in r <==> v < 0.0)
    ensures v > 0.0 ==> r == [Rupee] + magnitude
  {
    if v == 0.0 then "-" else CurrencyText(v, magnitude)
  }

  /** The grand-total footer cell. */
  function FooterText(total: real, magnitude: string): (r: string)
    requires '-' !in magnitude
    ensures r == "-" <==> total == 0.0
    ensures total != 0.0 ==> Rupee in r && ('-' in r <==> total < 0.0)
  {
    FormatCurrency(total, magnitude)
  }

  /** The "Total Cumulative" header as written: the formatted total with its
      first '-' replaced. */
  function HeaderTextAsWritten(total: real, magnitude: string): (r: string)
    requires '-' !in magnitude
    ensures total == 0.0 ==> r == HeaderZero
    ensures total > 0.0 ==> r == [Rupee] + magnitude
    ensures '-' !in r
  {
    ReplaceFirst(FormatCurrency(total, magnitude), '-', HeaderZero)
  }

  /** The header as evidently intended: only the zero dash is replaced. */
  function HeaderText(total: real, magnitude: string): (r: string)
    requires '-' !in magnitude
    ensures total == 0.0 ==> r == HeaderZero
    ensures total != 0.0 ==> r == FooterText(total, magnitude)
    ensures '-' in r <==> total < 0.0
  {
    if total == 0.0 then HeaderZero else FormatCurrency(total, magnitude)
  }

  /** A zero grand total reads differently in the header and in the footer. */
  lemma ZeroTotalShownTwoWays(magnitude: string)
    requires '-' !in magnitude
    ensures HeaderTextAsWritten(0.0, magnitude) == HeaderZero
    ensures FooterText(0.0, magnitude) == "-"
    ensures HeaderText(0.0, magnitude) == HeaderTextAsWritten(0.0, magnitude)
  {
  }

  /** As written, the header turns the minus sign of a negative total into
      the zero string, so a negative total is shown without its sign. */
  lemma HeaderAsWrittenDropsSign(total: real, magnitude: string)
    requires '-' !in magnitude && total < 0.0
    ensures HeaderTextAsWritten(total, magnitude) == HeaderZero + [Rupee] + magnitude
    ensures '-' !in HeaderTextAsWritten(total, magnitude)
    ensures HeaderTextAsWritten(total, magnitude) != HeaderText(total, magnitude)
  {
    var f := FormatCurrency(total, magnitude);
    assert f == "-" + [Rupee] + magnitude;
    assert f[1..] == [Rupee] + magnitude;
    assert HeaderText(total, magnitude)[0] == '-';
  }

  /** The correction changes nothing for totals that are not negative. */
  lemma HeaderAgreesWhenNotNegative(total: real, magnitude: string)
    requires '-' !in magnitude && total >= 0.0
    ensures HeaderText(total, magnitude) == HeaderTextAsWritten(total, magnitude)
  {
    if total > 0.0 {
      assert '-' !in FormatCurrency(total, magnitude);
    }
  }
}
