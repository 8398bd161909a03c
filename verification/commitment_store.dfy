/** The commitment ledger: adding, editing and deleting rows, the "today"
    priority view, and folding a classifier result back into a row. The
    store is an ordered sequence, newest first; every operation returns the
    new sequence. */
module CommitmentStore {
  import opened Optional
  import opened Seqs
  import opened JsText
  import opened Records
  import opened AnalysisService

  function Ids(rows: seq<Commitment>): (ids: seq<string>)
    ensures |ids| == |rows|
    ensures forall i :: 0 <= i < |rows| ==> ids[i] == rows[i].id
  {
    seq(|rows|, i requires 0 <= i < |rows| => rows[i].id)
  }

  /** No two rows share an id. */
  predicate UniqueIds(rows: seq<Commitment>) {
    Distinct(Ids(rows))
  }

  /** A new row: the given id, every text field empty, status pending. */
  function BlankCommitment(id: string): (c: Commitment)
    ensures c.id == id && c.status == Pending
    ensures forall f: TextField :: TextOf(c, f) == ""
  {
    Commitment(id, "", "", "", "", "", "", Pending)
  }

  /** `handleAddRow`: a blank row with the freshly drawn id goes in front. */
  function AddRow(rows: seq<Commitment>, newId: string): (r: seq<Commitment>)
    ensures |r| == |rows| + 1
    ensures r[1..] == rows
    ensures r[0].id == newId && r[0].status == Pending
    ensures forall f: TextField :: TextOf(r[0], f) == ""
  {
    [BlankCommitment(newId)] + rows
  }

  /** A fresh id keeps the ids unique. */
  lemma AddKeepsIdsUnique(rows: seq<Commitment>, newId: string)
    requires UniqueIds(rows)
    requires newId !in Ids(rows)
    ensures UniqueIds(AddRow(rows, newId))
  {
    var r := AddRow(rows, newId);
    forall i, j | 0 <= i < j < |r|
      ensures Ids(r)[i] != Ids(r)[j]
    {
      assert r[j] == rows[j - 1];
      if i == 0 {
        assert Ids(rows)[j - 1] == rows[j - 1].id;
      } else {
        assert r[i] == rows[i - 1];
        assert Ids(rows)[i - 1] != Ids(rows)[j - 1];
      }
    }
  }

  /** One field edit from the form: a text input or the status selector. */
  datatype Edit = SetText(field: TextField, text: string) | SetStatus(status: Status)

  /** `after` is `before` with exactly the edited field set to the edited value. */
  predicate ChangedOnly(before: Commitment, after: Commitment, e: Edit) {
    && after.id == before.id
    && match e
       case SetText(f, t) =>
         && TextOf(after, f) == t
         && after.status == before.status
         && forall g: TextField :: g != f ==> TextOf(after, g) == TextOf(before, g)
       case SetStatus(s) =>
         && after.status == s
         && forall g: TextField :: TextOf(after, g) == TextOf(before, g)
  }

  /** `{ ...row, [field]: value }`. */
  function ApplyEdit(c: Commitment, e: Edit): (r: Commitment)
    ensures ChangedOnly(c, r, e)
  {
    match e
    case SetStatus(s) => c.(status := s)
    case SetText(f, t) =>
      match f
      case PersonName => c.(personName := t)
      case Transcript => c.(transcript := t)
      case ContactNo => c.(contactNo := t)
      case Date => c.(date := t)
      case Amount => c.(amount := t)
      case BranchOrProfile => c.(branchOrProfile := t)
  }

  /** The edit pins the row down: only one row differs from `before` in just that field. */
  lemma ChangedOnlyDetermines(before: Commitment, a: Commitment, b: Commitment, e: Edit)
    requires ChangedOnly(before, a, e) && ChangedOnly(before, b, e)
    ensures a == b
  {
    forall f: TextField
      ensures TextOf(a, f) == TextOf(b, f)
    {
      match e
      case SetText(g, t) => if f != g { } else { }
      case SetStatus(s) =>
    }
    CommitmentExtensionality(a, b);
  }

  /** `updateRow(id, field, value)`: every row carrying `id` gets the edit,
      every other row is untouched, and nothing moves. */
  function UpdateRow(rows: seq<Commitment>, id: string, e: Edit): (r: seq<Commitment>)
    ensures |r| == |rows| && Ids(r) == Ids(rows)
    ensures forall i :: 0 <= i < |rows| && rows[i].id == id ==> ChangedOnly(rows[i], r[i], e)
    ensures forall i :: 0 <= i < |rows| && rows[i].id != id ==> r[i] == rows[i]
    ensures id !in Ids(rows) ==> r == rows
  {
    seq(|rows|, i requires 0 <= i < |rows| => if rows[i].id == id then ApplyEdit(rows[i], e) else rows[i])
  }

  function HasId(id: string): Commitment -> bool {
    (c: Commitment) => c.id == id
  }

  function LacksId(id: string): Commitment -> bool {
    (c: Commitment) => c.id != id
  }

  /** `handleDelete(id)`: drops the rows carrying `id` and keeps all others in order. */
  function DeleteRow(rows: seq<Commitment>, id: string): (r: seq<Commitment>)
    ensures IsSubsequence(r, rows)
    ensures id !in Ids(r)
    ensures forall i :: 0 <= i < |rows| && rows[i].id != id ==> rows[i] in r
    ensures |r| + Count(rows, HasId(id)) == |rows|
  {
    var r := Filter(rows, LacksId(id));
    CountComplement(rows, LacksId(id), HasId(id));
    assert forall i :: 0 <= i < |r| ==> Ids(r)[i] != id;
    r
  }

  /** Deleting an id that is not there changes nothing. */
  lemma DeleteAbsent(rows: seq<Commitment>, id: string)
    requires id !in Ids(rows)
    ensures DeleteRow(rows, id) == rows
  {
    assert forall i :: 0 <= i < |rows| ==> Ids(rows)[i] != id;
    FilterAllKept(rows, LacksId(id));
  }

  /** Deleting twice is deleting once. */
  lemma DeleteIdempotent(rows: seq<Commitment>, id: string)
    ensures DeleteRow(DeleteRow(rows, id), id) == DeleteRow(rows, id)
  {
    DeleteAbsent(DeleteRow(rows, id), id);
  }

  /** An edit that arrives after its row was deleted is lost. */
  lemma UpdateAfterDelete(rows: seq<Commitment>, id: string, e: Edit)
    ensures UpdateRow(DeleteRow(rows, id), id, e) == DeleteRow(rows, id)
  {
  }

  /** Edits and deletions keep the ids unique. */
  lemma StoreKeepsIdsUnique(rows: seq<Commitment>, id: string, e: Edit)
    requires UniqueIds(rows)
    ensures UniqueIds(UpdateRow(rows, id, e))
    ensures UniqueIds(DeleteRow(rows, id))
  {
    var u := UpdateRow(rows, id, e);
    forall i, j | 0 <= i < j < |u|
      ensures Ids(u)[i] != Ids(u)[j]
    {
      assert Ids(u)[i] == Ids(rows)[i] && Ids(u)[j] == Ids(rows)[j];
    }
    FilterKeepsUniqueIds(rows, LacksId(id));
  }

  /** Unique ids, stated row by row. */
  lemma UniqueIdsByRow(rows: seq<Commitment>)
    ensures UniqueIds(rows) <==> forall i, j :: 0 <= i < j < |rows| ==> rows[i].id != rows[j].id
  {
    var ids := Ids(rows);
    assert forall i :: 0 <= i < |rows| ==> ids[i] == rows[i].id;
  }

  /** Filtering keeps ids unique: every kept row comes from the input. */
  lemma {:induction false} FilterKeepsUniqueIds(rows: seq<Commitment>, keep: Commitment -> bool)
    requires UniqueIds(rows)
    ensures UniqueIds(Filter(rows, keep))
  {
    if |rows| > 0 {
      var rest := Filter(rows[1..], keep);
      UniqueIdsByRow(rows);
      UniqueIdsByRow(rows[1..]);
      FilterKeepsUniqueIds(rows[1..], keep);
      UniqueIdsByRow(rest);
      if keep(rows[0]) {
        var r := Filter(rows, keep);
        assert r == [rows[0]] + rest;
        forall j | 0 < j < |r|
          ensures r[0].id != r[j].id
        {
          assert r[j] == rest[j - 1];
          var k :| 0 <= k < |rows[1..]| && rows[1..][k] == rest[j - 1];
          assert rows[k + 1] == r[j];
        }
        UniqueIdsByRow(r);
      }
    }
  }

  /** The "today's priorities" test: a date is set, it is `today`, and the
      debt is not cleared. */
  function DueOn(today: string): Commitment -> bool {
    (c: Commitment) => c.date != "" && c.date == today && c.status != NoDues
  }

  /** The `filterToday` view. `today` is the UTC calendar date as
      `YYYY-MM-DD`, supplied by the caller. */
  function TodayView(rows: seq<Commitment>, today: string): (r: seq<Commitment>)
    ensures IsSubsequence(r, rows)
    ensures forall i :: 0 <= i < |r| ==> r[i].date != "" && r[i].date == today && r[i].status != NoDues
    ensures forall i :: 0 <= i < |rows| && rows[i].date != "" && rows[i].date == today && rows[i].status != NoDues
              ==> rows[i] in r
    ensures |r| == Count(rows, DueOn(today))
  {
    Filter(rows, DueOn(today))
  }

  /** Rows without a date never show up, not even for an empty `today`. */
  lemma TodayViewSkipsUndated(rows: seq<Commitment>, today: string, c: Commitment)
    requires c in rows && c.date == ""
    ensures c !in TodayView(rows, today)
  {
  }

  /** `result.extractedDate || r.date` and the matching amount rule, plus
      the unconditional status overwrite: the merge step of `handleAnalyze`. */
  function MergeResult(c: Commitment, res: AnalysisResult): (r: Commitment)
    ensures r.id == c.id && r.status == res.suggestedStatus
    ensures res.extractedDate == None || res.extractedDate == Some("") ==> r.date == c.date
    ensures res.extractedDate.Some? && res.extractedDate.value != "" ==> r.date == res.extractedDate.value
    ensures res.extractedAmount == None || res.extractedAmount == Some(0) ==> r.amount == c.amount
    ensures res.extractedAmount.Some? && res.extractedAmount.value != 0 ==>
              r.amount == IntToText(res.extractedAmount.value)
    ensures forall f: TextField :: f != Date && f != Amount ==> TextOf(r, f) == TextOf(c, f)
  {
    var date := match res.extractedDate
      case Some(d) => if d != "" then d else c.date
      case None => c.date;
    var amount := match res.extractedAmount
      case Some(n) => if n != 0 then IntToText(n) else c.amount
      case None => c.amount;
    c.(status := res.suggestedStatus, date := date, amount := amount)
  }

  /** The amount text a merge writes reads back as the extracted amount. */
  lemma MergedAmountReadsBack(c: Commitment, res: AnalysisResult)
    requires res.extractedAmount.Some? && res.extractedAmount.value != 0
    ensures NumberOrZero(MergeResult(c, res).amount) == res.extractedAmount.value as real
  {
    IntToTextRoundTrip(res.extractedAmount.value);
  }

  /** `prev.map(...)` applying the merge to the row carrying `id`, on the
      rows as they are when the classification completes. */
  function MergeInto(rows: seq<Commitment>, id: string, res: AnalysisResult): (r: seq<Commitment>)
    ensures |r| == |rows| && Ids(r) == Ids(rows)
    ensures forall i :: 0 <= i < |rows| && rows[i].id == id ==> r[i] == MergeResult(rows[i], res)
    ensures forall i :: 0 <= i < |rows| && rows[i].id != id ==> r[i] == rows[i]
    ensures id !in Ids(rows) ==> r == rows
  {
    seq(|rows|, i requires 0 <= i < |rows| => if rows[i].id == id then MergeResult(rows[i], res) else rows[i])
  }

  /** `handleAnalyze(row)`: nothing happens for a blank transcript; otherwise
      the classifier's answer for `row.transcript` is merged into `prev`,
      the rows as they stand when the answer arrives. */
  function HandleAnalyze(prev: seq<Commitment>, row: Commitment, apiKey: string, outcome: RemoteOutcome)
    : (r: seq<Commitment>)
    ensures IsBlank(row.transcript) ==> r == prev
    ensures !IsBlank(row.transcript) ==>
              r == MergeInto(prev, row.id, AnalyzeTranscript(apiKey, row.transcript, outcome))
    ensures |r| == |prev| && Ids(r) == Ids(prev)
    ensures row.id !in Ids(prev) ==> r == prev
  {
    TrimEmptyIffBlank(row.transcript);
    if Trim(row.transcript) == "" then prev
    else MergeInto(prev, row.id, AnalyzeTranscript(apiKey, row.transcript, outcome))
  }

  /** A fallback answer resets the status to pending and keeps the row's
      date and amount. */
  lemma FallbackMergeKeepsDateAndAmount(c: Commitment, apiKey: string, transcript: string, outcome: RemoteOutcome)
    requires apiKey == "" || !outcome.Reply?
    ensures MergeResult(c, AnalyzeTranscript(apiKey, transcript, outcome)).status == Pending
    ensures MergeResult(c, AnalyzeTranscript(apiKey, transcript, outcome)).date == c.date
    ensures MergeResult(c, AnalyzeTranscript(apiKey, transcript, outcome)).amount == c.amount
  {
  }

  /** Adding a row and typing its transcript leaves the rest of the ledger alone. */
  lemma AddThenType(rows: seq<Commitment>, newId: string, text: string)
    requires UniqueIds(rows) && newId !in Ids(rows)
    ensures var added := UpdateRow(AddRow(rows, newId), newId, SetText(Transcript, text));
            && added[0] == BlankCommitment(newId).(transcript := text)
            && added[1..] == rows
            && UniqueIds(added)
  {
    var a := AddRow(rows, newId);
    AddKeepsIdsUnique(rows, newId);
    StoreKeepsIdsUnique(a, newId, SetText(Transcript, text));
    var added := UpdateRow(a, newId, SetText(Transcript, text));
    UniqueIdsByRow(a);
    assert added[0] == ApplyEdit(a[0], SetText(Transcript, text));
    forall i | 1 <= i < |a|
      ensures added[i] == a[i]
    {
      assert a[i].id != a[0].id;
    }
    assert added[1..] == a[1..];
  }

  /** Classifying a row without a key only touches that row, and leaves it
      pending with its date and amount. */
  lemma UnconfiguredAnalyze(rows: seq<Commitment>, outcome: RemoteOutcome)
    requires |rows| > 0 && UniqueIds(rows) && !IsBlank(rows[0].transcript)
    ensures var analysed := HandleAnalyze(rows, rows[0], "", outcome);
            && analysed[0] == rows[0].(status := Pending)
            && analysed[1..] == rows[1..]
  {
    var res := AnalyzeTranscript("", rows[0].transcript, outcome);
    var analysed := HandleAnalyze(rows, rows[0], "", outcome);
    assert analysed == MergeInto(rows, rows[0].id, res);
    assert analysed[0] == MergeResult(rows[0], res);
    UniqueIdsByRow(rows);
    forall i | 1 <= i < |rows|
      ensures analysed[i] == rows[i]
    {
      assert rows[i].id != rows[0].id;
    }
  }

  const ScenarioTranscript: string := "paid half, will clear rest next month"

  /** Add a row, type a transcript, classify without a key: the row stays
      pending with its date and amount untouched. */
  lemma UnconfiguredScenario(rows: seq<Commitment>, newId: string, outcome: RemoteOutcome)
    requires UniqueIds(rows) && newId !in Ids(rows)
    ensures var added := UpdateRow(AddRow(rows, newId), newId, SetText(Transcript, ScenarioTranscript));
            var analysed := HandleAnalyze(added, added[0], "", outcome);
            && analysed[0].status == Pending
            && analysed[0].date == "" && analysed[0].amount == ""
            && analysed[0].transcript == ScenarioTranscript
            && analysed[1..] == rows
  {
    AddThenType(rows, newId, ScenarioTranscript);
    var added := UpdateRow(AddRow(rows, newId), newId, SetText(Transcript, ScenarioTranscript));
    assert !IsJsWhitespace(added[0].transcript[0]);
    UnconfiguredAnalyze(added, outcome);
  }
}
