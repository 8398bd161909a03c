/** The records of the data layer: the five outcome statuses, a tracked
    commitment, a fiscal year's quarterly outstanding dues, a classifier
    reply, and the fixed list of fiscal years. */
module Records {
  import opened Optional

  /** Outcome classification of a commitment. */
  datatype Status = Pending | FakeCommitment | Dishonored | PartialPayment | NoDues

  /** One tracked debtor interaction. Every field except `status` is text;
      `date` is an ISO `YYYY-MM-DD` string or empty, `amount` the text of
      the amount input. */
  datatype Commitment = Commitment(
    id: string,
    personName: string,
    transcript: string,
    contactNo: string,
    date: string,
    amount: string,
    branchOrProfile: string,
    status: Status)

  /** The editable text fields of a commitment. */
  datatype TextField = PersonName | Transcript | ContactNo | Date | Amount | BranchOrProfile

  function TextOf(c: Commitment, f: TextField): string {
    match f
    case PersonName => c.personName
    case Transcript => c.transcript
    case ContactNo => c.contactNo
    case Date => c.date
    case Amount => c.amount
    case BranchOrProfile => c.branchOrProfile
  }

  /** Two commitments with the same id, status and text fields are the same commitment. */
  lemma CommitmentExtensionality(a: Commitment, b: Commitment)
    requires a.id == b.id && a.status == b.status
    requires forall f: TextField :: TextOf(a, f) == TextOf(b, f)
    ensures a == b
  {
    assert TextOf(a, PersonName) == TextOf(b, PersonName);
    assert TextOf(a, Transcript) == TextOf(b, Transcript);
    assert TextOf(a, ContactNo) == TextOf(b, ContactNo);
    assert TextOf(a, Date) == TextOf(b, Date);
    assert TextOf(a, Amount) == TextOf(b, Amount);
    assert TextOf(a, BranchOrProfile) == TextOf(b, BranchOrProfile);
  }

  /** What the classifier hands back: a status, an optional date and amount
      (JSON `null` is None), and a short explanation. */
  datatype AnalysisResult = AnalysisResult(
    suggestedStatus: Status,
    extractedDate: Option<string>,
    extractedAmount: Option<int>,
    reasoning: string)

  /** One fiscal year's outstanding dues; each quarter is the text of its input. */
  datatype YearlyRow = YearlyRow(id: string, year: string, q1: string, q2: string, q3: string, q4: string)

  datatype Quarter = Q1 | Q2 | Q3 | Q4

  function QuarterText(row: YearlyRow, q: Quarter): string {
    match q
    case Q1 => row.q1
    case Q2 => row.q2
    case Q3 => row.q3
    case Q4 => row.q4
  }

  /** The fiscal years tracked, most recent first. */
  const InitialYears: seq<string> := [
    "2025-26", "2024-25", "2023-24", "2022-23",
    "2021-22", "2020-21", "2019-20", "2018-19", "2017-18"
  ]

  predicate Distinct<T(==)>(s: seq<T>) {
    forall i, j :: 0 <= i < j < |s| ==> s[i] != s[j]
  }
}
