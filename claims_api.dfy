/** The server's claims router: listing, submitting and deleting claims in the
    claims file, training the model from an uploaded CSV, and the model status.
    The model analysis, the clock and the training itself are parameters. */
module ClaimsApi {
  import opened Wrappers
  import opened JsValues
  import opened TrainingMeta
  import opened ClaimsTable
  import opened Sequences

  /** An `HTTPException`: status code and detail. */
  datatype HttpError = HttpError(status: int, detail: string)

  /** The request body of a claim submission. */
  datatype ClaimSubmission = ClaimSubmission(customerId: string, description: string, amount: real, tenure: int)

  /** What `analyze_claim` returns for a claim. */
  datatype Analysis = Analysis(
    category: string, urgency: string, fraudRisk: string,
    anomalyScore: real, authenticity: real, priority: real, rank: real)

  /** How parsing the upload and training on it ended. */
  datatype TrainOutcome = Trained(meta: Meta) | Failed(message: string)

  const ClaimColumns: seq<string> := [
    "Timestamp", "Customer_ID", "Description", "Amount", "Tenure", "Category", "Urgency",
    "Fraud_Risk", "Anomaly_Score", "authenticity_score", "priority_score", "rank_score", "Status"]
  const TimestampColumn := 0
  const CustomerIdColumn := 1

  const ModelNotLoaded := "Model not loaded. Please train the system first via Admin Dashboard."
  const NotCsv := "File must be a CSV"
  const NoDatabase := "No claims database found"
  const ClaimNotFound := "Claim not found"
  const DeletePrefix := "Error deleting claim: "
  /** FastAPI's answer to an exception that no handler catches. */
  const InternalError := "Internal Server Error"

  /** The cells of the record `submit_claim` builds, in column order. */
  function ClaimCells(claim: ClaimSubmission, a: Analysis, now: string): (cells: seq<Cell>)
    ensures |cells| == |ClaimColumns|
    ensures cells[CustomerIdColumn] == Text(claim.customerId)
    ensures cells[2] == Text(claim.description) && cells[3] == Number(claim.amount)
    ensures cells[4] == Number(claim.tenure as real)
    ensures cells[12] == Text("Pending Review")
  {
    [Text(now), Text(claim.customerId), Text(claim.description), Number(claim.amount),
     Number(claim.tenure as real), Text(a.category), Text(a.urgency), Text(a.fraudRisk),
     Number(a.anomalyScore), Number(a.authenticity), Number(a.priority), Number(a.rank),
     Text("Pending Review")]
  }

  /** The same record as the JSON `data` of the reply. */
  function ClaimRecord(claim: ClaimSubmission, a: Analysis, now: string): (r: Record)
    ensures Keys(r) == ClaimColumns
  {
    var cells := ClaimCells(claim, a, now);
    seq(|ClaimColumns|, i requires 0 <= i < |ClaimColumns| => Field(ClaimColumns[i], FilledJson(cells[i])))
  }

  /** A saved claim reads back as the record the submission returned, each
      value reread: a text that `read_csv` takes for NaN lists as "", every
      other value as it was returned. */
  lemma ListedAsReturned(claim: ClaimSubmission, a: Analysis, now: string)
    ensures RecordOf(ClaimColumns, StoredRow(ClaimCells(claim, a, now))) == RereadRecord(ClaimRecord(claim, a, now))
  {
    var cells := ClaimCells(claim, a, now);
    var returned := ClaimRecord(claim, a, now);
    var padded := RecordOf(ClaimColumns, cells);
    assert |returned| == |Keys(returned)| == |ClaimColumns| == |Keys(padded)| == |padded|;
    forall i | 0 <= i < |ClaimColumns|
      ensures padded[i] == returned[i]
    {
      assert padded[i].key == Keys(padded)[i] == ClaimColumns[i];
    }
    assert padded == returned;
    RecordOfStored(ClaimColumns, cells);
  }

  /** None of the submission's texts is one that `read_csv` takes for NaN. */
  predicate PlainTexts(claim: ClaimSubmission, a: Analysis, now: string)
  {
    && now !in NaTexts && claim.customerId !in NaTexts && claim.description !in NaTexts
    && a.category !in NaTexts && a.urgency !in NaTexts && a.fraudRisk !in NaTexts
  }

  lemma PendingReviewIsPlain()
    ensures "Pending Review" !in NaTexts
  {
    assert forall t | t in NaTexts :: |t| != |"Pending Review"|;
  }

  /** No cell of a claim without NA texts is one. */
  lemma PlainCells(claim: ClaimSubmission, a: Analysis, now: string)
    requires PlainTexts(claim, a, now)
    ensures forall i :: 0 <= i < |ClaimColumns| ==> !IsNaText(ClaimCells(claim, a, now)[i])
  {
    PendingReviewIsPlain();
    var cells := ClaimCells(claim, a, now);
    assert cells == [Text(now), Text(claim.customerId), Text(claim.description), Number(claim.amount),
      Number(claim.tenure as real), Text(a.category), Text(a.urgency), Text(a.fraudRisk),
      Number(a.anomalyScore), Number(a.authenticity), Number(a.priority), Number(a.rank),
      Text("Pending Review")];
  }

  /** A claim without NA texts is listed back as exactly the returned record. */
  lemma PlainClaimListsAsReturned(claim: ClaimSubmission, a: Analysis, now: string)
    requires PlainTexts(claim, a, now)
    ensures RereadRecord(ClaimRecord(claim, a, now)) == ClaimRecord(claim, a, now)
    ensures RecordOf(ClaimColumns, StoredRow(ClaimCells(claim, a, now))) == ClaimRecord(claim, a, now)
  {
    var cells := ClaimCells(claim, a, now);
    var r := ClaimRecord(claim, a, now);
    PlainCells(claim, a, now);
    forall i | 0 <= i < |r|
      ensures RereadJson(r[i].value) == r[i].value
    {
      assert r[i] == Field(ClaimColumns[i], FilledJson(cells[i]));
      FilledPlain(cells[i]);
    }
    RereadFixed(r);
    ListedAsReturned(claim, a, now);
  }

  /** A description typed as "N/A" is listed back as an empty one. */
  lemma NaDescriptionListsEmpty(claim: ClaimSubmission, a: Analysis, now: string)
    requires claim.description == "N/A"
    ensures RecordOf(ClaimColumns, StoredRow(ClaimCells(claim, a, now)))[2] == Field("Description", JStr(""))
  {
    ListedAsReturned(claim, a, now);
    assert ClaimRecord(claim, a, now)[2] == Field("Description", JStr("N/A"));
  }

  /** `file.filename.endswith('.csv')`, case-sensitive. */
  predicate IsCsvName(name: string)
  {
    |name| >= 4 && name[|name| - 4..] == ".csv"
  }

  /** A name passes the check exactly when it is some name followed by ".csv";
      the test is case-sensitive. */
  lemma CsvNameSuffix(name: string)
    ensures IsCsvName(name) <==> exists base: string :: name == base + ".csv"
    ensures !IsCsvName("claims.CSV")
  {
    if IsCsvName(name) {
      assert name == name[..|name| - 4] + ".csv";
    }
    assert "claims.CSV"[6..] != ".csv" by {
      assert "claims.CSV"[6..][1] == 'C';
    }
  }

  /** `str(value)` of a key cell after `astype(str)`: NaN becomes "nan". */
  function KeyText(c: Cell): string
    requires !c.Number?
  {
    if c.Missing? then "nan" else c.s
  }

  /** A data row in the server's layout: one cell per column, and the key
      columns hold text or NaN. */
  predicate ServerRow(cells: seq<Cell>)
  {
    |cells| == |ClaimColumns| && !cells[TimestampColumn].Number? && !cells[CustomerIdColumn].Number?
  }

  /** A claims file in the server's layout: the claim columns as header, then
      rows in the server's layout. */
  predicate ServerFile(lines: seq<Line>)
  {
    WellFormed(lines) && lines[0] == Header(ClaimColumns)
    && forall i :: 1 <= i < |lines| ==> ServerRow(lines[i].cells)
  }

  /** Saving a submitted claim keeps the server's layout. */
  lemma SaveKeepsServerFile(file: Option<seq<Line>>, claim: ClaimSubmission, a: Analysis, now: string)
    requires file.Some? ==> ServerFile(file.value)
    ensures ServerFile(Save(file, ClaimColumns, ClaimCells(claim, a, now)))
  {
    var cells := ClaimCells(claim, a, now);
    SaveAppendsOneRow(file, ClaimColumns, cells);
    var lines := Save(file, ClaimColumns, cells);
    assert ServerRow(StoredRow(cells));
    assert lines[|lines| - 1] == Row(StoredRow(cells));
  }

  /** After a submission is saved, the listing is the old listing followed by
      the returned record as the file gives it back. */
  lemma SavedClaimListed(file: Option<seq<Line>>, claim: ClaimSubmission, a: Analysis, now: string)
    requires file.Some? ==> ServerFile(file.value)
    ensures ServerFile(Save(file, ClaimColumns, ClaimCells(claim, a, now)))
    ensures Listed(Save(file, ClaimColumns, ClaimCells(claim, a, now)))
         == (if file.None? then [] else Listed(file.value)) + [RereadRecord(ClaimRecord(claim, a, now))]
  {
    var cells := ClaimCells(claim, a, now);
    SaveKeepsServerFile(file, claim, a, now);
    ListedAsReturned(claim, a, now);
    ListedAfterSave(file, ClaimColumns, cells);
  }

  /** The delete mask for one row. */
  predicate Matches(cells: seq<Cell>, customerId: string, timestamp: string)
    requires ServerRow(cells)
  {
    KeyText(cells[CustomerIdColumn]) == customerId && KeyText(cells[TimestampColumn]) == timestamp
  }

  /** `df[~mask]`: the rows that do not match, in their order. */
  function Unmatched(rows: seq<seq<Cell>>, customerId: string, timestamp: string): (kept: seq<seq<Cell>>)
    requires forall i :: 0 <= i < |rows| ==> ServerRow(rows[i])
    ensures forall i :: 0 <= i < |kept| ==> ServerRow(kept[i]) && !Matches(kept[i], customerId, timestamp)
  {
    if rows == [] then []
    else
      (if Matches(rows[0], customerId, timestamp) then [] else [rows[0]])
      + Unmatched(rows[1..], customerId, timestamp)
  }

  /** Delete removes every copy of a matching row and keeps every copy of any
      other row, so several claims with the same key all go at once. */
  lemma {:induction false} UnmatchedMultiplicity(rows: seq<seq<Cell>>, customerId: string, timestamp: string, r: seq<Cell>)
    requires forall i :: 0 <= i < |rows| ==> ServerRow(rows[i])
    ensures multiset(Unmatched(rows, customerId, timestamp))[r]
         == if ServerRow(r) && Matches(r, customerId, timestamp) then 0 else multiset(rows)[r]
  {
    if rows != [] {
      UnmatchedMultiplicity(rows[1..], customerId, timestamp, r);
      assert rows == [rows[0]] + rows[1..];
    }
  }

  /** Rows that survive keep their relative order: the result is the input with
      the matching rows dropped, so unmatched input is returned as it is. */
  lemma {:induction false} UnmatchedKeepsOrder(rows: seq<seq<Cell>>, customerId: string, timestamp: string)
    requires forall i :: 0 <= i < |rows| ==> ServerRow(rows[i])
    requires forall i :: 0 <= i < |rows| ==> !Matches(rows[i], customerId, timestamp)
    ensures Unmatched(rows, customerId, timestamp) == rows
  {
    if rows != [] {
      UnmatchedKeepsOrder(rows[1..], customerId, timestamp);
    }
  }

  /** The positions at which `Unmatched` picks its rows. */
  lemma {:induction false} UnmatchedIndices(rows: seq<seq<Cell>>, customerId: string, timestamp: string) returns (idx: seq<int>)
    requires forall i :: 0 <= i < |rows| ==> ServerRow(rows[i])
    ensures Picks(Unmatched(rows, customerId, timestamp), rows, idx)
    ensures forall i :: 0 <= i < |rows| ==> (i in idx <==> !Matches(rows[i], customerId, timestamp))
  {
    if rows == [] {
      return [];
    }
    var rest := Unmatched(rows[1..], customerId, timestamp);
    var tail := UnmatchedIndices(rows[1..], customerId, timestamp);
    PicksCons(rows[0], rows[1..], rest, tail);
    assert [rows[0]] + rows[1..] == rows;
    if Matches(rows[0], customerId, timestamp) {
      assert Unmatched(rows, customerId, timestamp) == rest;
      idx := Shifted(tail);
    } else {
      assert Unmatched(rows, customerId, timestamp) == [rows[0]] + rest;
      idx := [0] + Shifted(tail);
    }
    forall i | 0 <= i < |rows|
      ensures i in idx <==> !Matches(rows[i], customerId, timestamp)
    {
      PickedAfterHead(tail, i, |rows| - 1);
      if i > 0 {
        assert rows[1..][i - 1] == rows[i];
      }
    }
  }

  /** After a delete the surviving rows are the old rows at the non-matching
      positions, in their original order. */
  lemma UnmatchedInOrder(rows: seq<seq<Cell>>, customerId: string, timestamp: string)
    requires forall i :: 0 <= i < |rows| ==> ServerRow(rows[i])
    ensures exists idx ::
      && Picks(Unmatched(rows, customerId, timestamp), rows, idx)
      && (forall i :: 0 <= i < |rows| ==> (i in idx <==> !Matches(rows[i], customerId, timestamp)))
  {
    var idx := UnmatchedIndices(rows, customerId, timestamp);
  }

  /** A claim saved under the customer id "NA" cannot be deleted by that id:
      the id reads back as NaN, which `astype(str)` turns into "nan". */
  lemma NaCustomerIdNeverMatches(claim: ClaimSubmission, a: Analysis, now: string, timestamp: string)
    requires claim.customerId == "NA"
    ensures ServerRow(StoredRow(ClaimCells(claim, a, now)))
    ensures !Matches(StoredRow(ClaimCells(claim, a, now)), "NA", timestamp)
  {
    var row := StoredRow(ClaimCells(claim, a, now));
    assert row[CustomerIdColumn] == Stored(Text("NA")) == Missing;
  }

  /** Some row matches the key. */
  predicate AnyMatch(rows: seq<seq<Cell>>, customerId: string, timestamp: string)
    requires forall i :: 0 <= i < |rows| ==> ServerRow(rows[i])
  {
    exists i :: 0 <= i < |rows| && Matches(rows[i], customerId, timestamp)
  }

  class ClaimsServer {
    /** The claims CSV; `None` while the file does not exist. */
    var claimsFile: Option<seq<Line>>
    /** The meta of the persisted model; `None` when no model loads. */
    var model: Option<Meta>

    /** The file has one header, the claim columns, and rows in the server's layout. */
    predicate Valid()
      reads this
    {
      claimsFile.Some? ==> ServerFile(claimsFile.value)
    }

    constructor (file: Option<seq<Line>>, meta: Option<Meta>)
      requires file.Some? ==> ServerFile(file.value)
      ensures Valid()
      ensures claimsFile == file && model == meta
    {
      claimsFile := file;
      model := meta;
    }

    /** `get_claims`: `[]` without a file; otherwise one record per data row, in
        file order, keyed by the header, with every NaN replaced by "". */
    function GetClaims(): (records: seq<Record>)
      requires Valid()
      reads this
      ensures claimsFile.None? ==> records == []
      ensures claimsFile.Some? ==>
        |records| == |claimsFile.value| - 1
        && forall i :: 0 <= i < |records| ==>
          records[i] == RecordOf(ClaimColumns, claimsFile.value[i + 1].cells)
    {
      if claimsFile.None? then [] else Listed(claimsFile.value)
    }

    /** `get_model_status`: active exactly when a model loads, with its meta;
        otherwise inactive with no meta. */
    function GetModelStatus(): (status: ModelStatus)
      reads this
      ensures status.active <==> model.Some?
      ensures status.meta == model
      ensures !status.active ==> status.meta.None?
    {
      if model.Some? then ModelStatus(true, model) else ModelStatus(false, None)
    }

    /** `submit_claim`: without a model, 503 and the file is untouched;
        otherwise the analysed record is appended as one row (with the header
        first when the file is new) and returned. The listing then ends with
        the returned record as the file gives it back: NA texts read as "". */
    method SubmitClaim(claim: ClaimSubmission, analysis: Analysis, now: string) returns (res: Result<Record, HttpError>)
      requires Valid()
      modifies this
      ensures Valid() && model == old(model)
      ensures res.Err? <==> old(model).None?
      ensures res.Err? ==> res.error == HttpError(503, ModelNotLoaded) && claimsFile == old(claimsFile)
      ensures res.Ok? ==>
        res.value == ClaimRecord(claim, analysis, now)
        && claimsFile == Some(Save(old(claimsFile), ClaimColumns, ClaimCells(claim, analysis, now)))
      ensures res.Ok? ==> GetClaims() == old(GetClaims()) + [RereadRecord(res.value)]
    {
      if model.None? {
        return Err(HttpError(503, ModelNotLoaded));
      }
      ghost var listedBefore := GetClaims();
      var cells := ClaimCells(claim, analysis, now);
      var lines := Save(claimsFile, ClaimColumns, cells);
      SavedClaimListed(claimsFile, claim, analysis, now);
      assert Listed(lines) == listedBefore + [RereadRecord(ClaimRecord(claim, analysis, now))];
      claimsFile := Some(lines);
      res := Ok(ClaimRecord(claim, analysis, now));
    }

    /** `train_model`: a name not ending in ".csv" is refused with 400 before
        anything is read; bytes that are not UTF-8 escape the handler as a bare
        500; a parsing or training failure is a 500 carrying its message; a
        success installs the model and returns its meta. */
    method TrainModel(filename: string, utf8: bool, outcome: TrainOutcome) returns (res: Result<Meta, HttpError>)
      modifies this
      ensures claimsFile == old(claimsFile)
      ensures !IsCsvName(filename) ==> res == Err(HttpError(400, NotCsv))
      ensures IsCsvName(filename) && !utf8 ==> res == Err(HttpError(500, InternalError))
      ensures IsCsvName(filename) && utf8 && outcome.Failed? ==> res == Err(HttpError(500, outcome.message))
      ensures IsCsvName(filename) && utf8 && outcome.Trained? ==> res == Ok(outcome.meta)
      ensures model == if res.Ok? then Some(res.value) else old(model)
    {
      if !IsCsvName(filename) {
        return Err(HttpError(400, NotCsv));
      }
      if !utf8 {
        return Err(HttpError(500, InternalError));
      }
      match outcome {
        case Failed(message) =>
          res := Err(HttpError(500, message));
        case Trained(meta) =>
          model := Some(meta);
          res := Ok(meta);
      }
    }

    /** `delete_claim`: 404 without a file; when no row matches, the inner 404
        is caught and re-raised as a 500 and the file is untouched; otherwise
        the file is rewritten with its header and exactly the unmatched rows.
        A NaN key is written back as the text "nan", which reads back as NaN,
        so surviving rows read back as they were. The inner 404 shows up in the
        500's detail through `str` of the exception, "404: Claim not found". */
    method DeleteClaim(customerId: string, timestamp: string) returns (res: Result<string, HttpError>)
      requires Valid()
      modifies this
      ensures Valid() && model == old(model)
      ensures old(claimsFile).None? ==> res == Err(HttpError(404, NoDatabase)) && claimsFile == old(claimsFile)
      ensures old(claimsFile).Some? && !AnyMatch(Rows(old(claimsFile).value), customerId, timestamp) ==>
        res == Err(HttpError(500, DeletePrefix + "404: " + ClaimNotFound)) && claimsFile == old(claimsFile)
      ensures old(claimsFile).Some? && AnyMatch(Rows(old(claimsFile).value), customerId, timestamp) ==>
        res == Ok("Claim deleted successfully") && claimsFile.Some?
        && claimsFile.value[0] == Header(ClaimColumns)
        && Rows(claimsFile.value) == Unmatched(Rows(old(claimsFile).value), customerId, timestamp)
    {
      if claimsFile.None? {
        return Err(HttpError(404, NoDatabase));
      }
      var lines := claimsFile.value;
      var rows := Rows(lines);
      if !AnyMatch(rows, customerId, timestamp) {
        return Err(HttpError(500, DeletePrefix + "404: " + ClaimNotFound));
      }
      var kept := Unmatched(rows, customerId, timestamp);
      var rewritten := [Header(ClaimColumns)] + seq(|kept|, i requires 0 <= i < |kept| => Row(kept[i]));
      assert Rows(rewritten) == kept;
      claimsFile := Some(rewritten);
      res := Ok("Claim deleted successfully");
    }
  }
}
