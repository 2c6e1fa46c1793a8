/** The Streamlit prototype: the rule-based urgency and fraud-risk labels of
    `analyze_claim`, the column rules of `train_system`, the submission form's
    validation and save, and the admin view's category filter and counts. The
    trained predictors are parameters. */
module ClaimsProcessor {
  import opened Wrappers
  import opened TrainingMeta
  import opened ClaimsTable
  import opened JsValues
  import opened Sequences

  // ---------------------------------------------------------------------------
  // Urgency

  const UrgencyKeywords: seq<string> := ["emergency", "severe", "critical", "urgent", "immediately", "pain", "crash"]

  /** `str.lower` on ASCII letters. */
  function LowerChar(c: char): char
  {
    if 'A' <= c <= 'Z' then (c as int + 32) as char else c
  }

  function Lower(s: string): (r: string)
    ensures |r| == |s|
    ensures forall i :: 0 <= i < |s| ==> r[i] == LowerChar(s[i])
  {
    seq(|s|, i requires 0 <= i < |s| => LowerChar(s[i]))
  }

  /** Lower-casing twice is lower-casing once. */
  lemma LowerIdempotent(s: string)
    ensures Lower(Lower(s)) == Lower(s)
  {
    assert forall i :: 0 <= i < |s| ==> LowerChar(LowerChar(s[i])) == LowerChar(s[i]);
  }

  /** `k in s` for strings. */
  function Occurs(k: string, s: string): bool
  {
    k <= s || (s != [] && Occurs(k, s[1..]))
  }

  /** `k` is the slice of `s` starting at `i`. */
  predicate SliceAt(k: string, s: string, i: int)
  {
    0 <= i <= |s| - |k| && s[i..i + |k|] == k
  }

  /** `Occurs` is the substring test: some slice of `s` equals `k`. */
  lemma {:induction false} OccursAt(k: string, s: string)
    ensures Occurs(k, s) <==> exists i :: SliceAt(k, s, i)
  {
    if k <= s {
      assert s[0..|k|] == k;
      assert SliceAt(k, s, 0);
    } else if s != [] {
      OccursAt(k, s[1..]);
      if exists i :: SliceAt(k, s, i) {
        var i :| SliceAt(k, s, i);
        if i == 0 {
          assert false;
        }
        assert s[1..][i - 1..i - 1 + |k|] == s[i..i + |k|];
        assert SliceAt(k, s[1..], i - 1);
      }
      if Occurs(k, s[1..]) {
        var j :| SliceAt(k, s[1..], j);
        assert s[1..][j..j + |k|] == s[j + 1..j + 1 + |k|];
        assert SliceAt(k, s, j + 1);
      }
    } else {
      assert forall i :: !SliceAt(k, s, i);
    }
  }

  /** A word longer than the text never occurs in it. */
  lemma {:induction false} LongerNeverOccurs(k: string, s: string)
    requires |k| > |s|
    ensures !Occurs(k, s)
  {
    if s != [] {
      LongerNeverOccurs(k, s[1..]);
    }
  }

  /** "High" when a keyword occurs in the lower-cased description, else "Medium". */
  function Urgency(description: string): (level: string)
    ensures level == "High" || level == "Medium"
  {
    if exists k :: k in UrgencyKeywords && Occurs(k, Lower(description)) then "High" else "Medium"
  }

  /** The urgency rule as a substring test: "High" exactly when some keyword is
      a slice of the lower-cased description. */
  lemma UrgencyHighIff(description: string)
    ensures Urgency(description) == "High" <==>
      exists k, i :: k in UrgencyKeywords && SliceAt(k, Lower(description), i)
  {
    forall k | k in UrgencyKeywords {
      OccursAt(k, Lower(description));
    }
  }

  /** The rule ignores letter case. */
  lemma UrgencyIgnoresCase(description: string)
    ensures Urgency(Lower(description)) == Urgency(description)
  {
    LowerIdempotent(description);
  }

  /** A keyword counts inside a longer word and when written in capitals. */
  lemma UrgencyExamples()
    ensures Urgency("painting") == "High"
    ensures Urgency("CRASH") == "High"
  {
    assert Lower("painting") == "painting";
    assert "pain" <= "painting";
    assert "pain" in UrgencyKeywords;
    assert Lower("CRASH") == "crash";
    assert "crash" <= "crash";
    assert "crash" in UrgencyKeywords;
  }

  /** A description without any keyword is of medium urgency. */
  lemma UrgencyMedium()
    ensures Urgency("Lost") == "Medium"
  {
    var lost := Lower("Lost");
    assert lost == "lost";
    forall k | k in UrgencyKeywords
      ensures !Occurs(k, lost)
    {
      if |k| > |lost| {
        LongerNeverOccurs(k, lost);
      } else {
        assert k == "pain";
        assert lost[0] != k[0];
        LongerNeverOccurs(k, lost[1..]);
      }
    }
  }

  // ---------------------------------------------------------------------------
  // Fraud risk

  /** An isolation forest's `predict`: -1 for an outlier, 1 for an inlier. */
  type Prediction = p: int | p == -1 || p == 1 witness 1

  /** A fitted fraud detector over (amount, tenure). */
  datatype Detector = Detector(predict: (real, int) -> Prediction, decision: (real, int) -> real)

  /** The fraud part of `analyze_claim`. */
  function FraudRisk(fraud: Option<Detector>, amount: real, tenure: int): (assessment: (string, real))
    ensures fraud.None? ==> assessment == ("Unknown", 0.0)
    ensures fraud.Some? ==> (assessment.0 == "High" <==> fraud.value.predict(amount, tenure) == -1)
    ensures fraud.Some? ==> (assessment.0 == "Low" <==> fraud.value.predict(amount, tenure) == 1)
    ensures fraud.Some? ==> assessment.1 == fraud.value.decision(amount, tenure)
  {
    match fraud
    case None => ("Unknown", 0.0)
    case Some(d) => (if d.predict(amount, tenure) == -1 then "High" else "Low", d.decision(amount, tenure))
  }

  // ---------------------------------------------------------------------------
  // Training

  /** A trained bundle: the category classifier, the optional fraud detector and the meta. */
  datatype Brain = Brain(nlp: string -> string, fraud: Option<Detector>, meta: Meta)

  /** What training sees of the uploaded frame. */
  datatype Frame = Frame(columns: seq<string>, rowCount: nat)

  /** `train_system`: the text columns must exist (`df[...]` raises a KeyError
      whose text is the quoted column name); fraud detection is built only
      when both numeric columns exist; the meta counts the training rows. The
      fitted models are parameters. */
  function TrainSystem(frame: Frame, now: string, nlp: string -> string, detector: Detector): (r: Result<Brain, string>)
    ensures "Description" !in frame.columns ==> r == Err("'Description'")
    ensures "Description" in frame.columns && "Policy_Type" !in frame.columns ==> r == Err("'Policy_Type'")
    ensures r.Ok? <==> "Description" in frame.columns && "Policy_Type" in frame.columns
    ensures r.Ok? ==> (r.value.fraud.Some? <==> "Amount" in frame.columns && "Customer_Tenure" in frame.columns)
    ensures r.Ok? ==> r.value.meta == Meta(now, frame.rowCount) && r.value.nlp == nlp
  {
    if "Description" !in frame.columns then Err("'Description'")
    else if "Policy_Type" !in frame.columns then Err("'Policy_Type'")
    else
      var fraud := if "Amount" in frame.columns && "Customer_Tenure" in frame.columns then Some(detector) else None;
      Ok(Brain(nlp, fraud, Meta(now, frame.rowCount)))
  }

  /** A model trained without the numeric columns labels every claim "Unknown". */
  lemma NoNumericColumnsNoFraudLabel(frame: Frame, now: string, nlp: string -> string, d: Detector, amount: real, tenure: int)
    requires "Description" in frame.columns && "Policy_Type" in frame.columns
    requires "Amount" !in frame.columns
    ensures TrainSystem(frame, now, nlp, d).Ok?
    ensures FraudRisk(TrainSystem(frame, now, nlp, d).value.fraud, amount, tenure) == ("Unknown", 0.0)
  {
  }

  // ---------------------------------------------------------------------------
  // Submission

  const AppColumns: seq<string> := [
    "Timestamp", "Customer_ID", "Description", "Amount", "Tenure", "Category", "Urgency",
    "Fraud_Risk", "Anomaly_Score", "Status"]
  const CategoryColumn := 5
  const UrgencyColumn := 6
  const FraudRiskColumn := 7

  /** `not description or amount <= 0` rejects the form: an empty
      description or an amount that is not positive. */
  predicate ValidSubmission(description: string, amount: real): (ok: bool)
    ensures !ok <==> |description| == 0 || amount <= 0.0
  {
    description != "" && amount > 0.0
  }

  /** The saved record's cells for an analysed claim. */
  function SubmissionCells(brain: Brain, customerId: string, description: string, amount: real, tenure: int, now: string): (cells: seq<Cell>)
    ensures |cells| == |AppColumns|
    ensures cells[2] == Text(description) && cells[CategoryColumn] == Text(brain.nlp(description))
    ensures cells[UrgencyColumn] == Text(Urgency(description))
    ensures cells[FraudRiskColumn] == Text(FraudRisk(brain.fraud, amount, tenure).0)
    ensures cells[9] == Text("Pending Review")
  {
    var (risk, score) := FraudRisk(brain.fraud, amount, tenure);
    [Text(now), Text(customerId), Text(description), Number(amount), Number(tenure as real),
     Text(brain.nlp(description)), Text(Urgency(description)), Text(risk), Number(score),
     Text("Pending Review")]
  }

  /** What the submission page ends with. */
  datatype SubmitOutcome =
    | Unavailable            // no model: the form is not offered
    | Rejected(warning: string)
    | Submitted(category: string, needsVerification: bool)

  const InvalidWarning := "Please provide a description and a valid amount."
  const MaintenanceError := "System Maintenance: Claim processing is currently unavailable (Model not loaded). Please contact support."
  const SubmittedMessage := "✅ Claim Submitted Successfully!"
  const VerificationNote := "Note: Your claim requires additional verification due to unusual parameters."
  const FastTrackedNote := "Your claim has been fast-tracked."

  /** The receipt's closing note: extra verification for a "High" risk. */
  function ReceiptNote(risk: string): (note: string)
    ensures note == VerificationNote <==> risk == "High"
  {
    if risk == "High" then VerificationNote else FastTrackedNote
  }

  // ---------------------------------------------------------------------------
  // The admin view of the claims file

  /** `unique()`: each value once, in order of first appearance; NaN counts as one value. */
  function Unique(cells: seq<Cell>): (u: seq<Cell>)
    ensures forall c :: c in u <==> c in cells
    ensures forall i, j :: 0 <= i < j < |u| ==> u[i] != u[j]
  {
    if cells == [] then []
    else
      var rest := Unique(cells[..|cells| - 1]);
      if cells[|cells| - 1] in rest then rest else rest + [cells[|cells| - 1]]
  }

  /** The cells of one column, row by row. */
  function Column(rows: seq<seq<Cell>>, col: nat): (cs: seq<Cell>)
    requires forall i :: 0 <= i < |rows| ==> col < |rows[i]|
    ensures |cs| == |rows|
    ensures forall i :: 0 <= i < |rows| ==> cs[i] == rows[i][col]
  {
    seq(|rows|, i requires 0 <= i < |rows| => rows[i][col])
  }

  /** `==` on a column: NaN equals nothing. */
  predicate SameValue(a: Cell, b: Cell)
  {
    a == b && !a.Missing?
  }

  /** The rows whose cell in `col` equals `value`, in order. */
  function RowsWhere(rows: seq<seq<Cell>>, col: nat, value: Cell): (kept: seq<seq<Cell>>)
    requires forall i :: 0 <= i < |rows| ==> col < |rows[i]|
    ensures |kept| <= |rows|
    ensures forall i :: 0 <= i < |kept| ==> col < |kept[i]| && SameValue(kept[i][col], value)
    ensures forall r :: r in kept <==> r in rows && SameValue(r[col], value)
  {
    if rows == [] then []
    else (if SameValue(rows[0][col], value) then [rows[0]] else []) + RowsWhere(rows[1..], col, value)
  }

  /** The positions at which `RowsWhere` picks its rows. */
  lemma {:induction false} RowsWhereIndices(rows: seq<seq<Cell>>, col: nat, value: Cell) returns (idx: seq<int>)
    requires forall i :: 0 <= i < |rows| ==> col < |rows[i]|
    ensures Picks(RowsWhere(rows, col, value), rows, idx)
    ensures forall i :: 0 <= i < |rows| ==> (i in idx <==> SameValue(rows[i][col], value))
  {
    if rows == [] {
      return [];
    }
    var rest := RowsWhere(rows[1..], col, value);
    var tail := RowsWhereIndices(rows[1..], col, value);
    PicksCons(rows[0], rows[1..], rest, tail);
    assert [rows[0]] + rows[1..] == rows;
    if SameValue(rows[0][col], value) {
      assert RowsWhere(rows, col, value) == [rows[0]] + rest;
      idx := [0] + Shifted(tail);
    } else {
      assert RowsWhere(rows, col, value) == rest;
      idx := Shifted(tail);
    }
    forall i | 0 <= i < |rows|
      ensures i in idx <==> SameValue(rows[i][col], value)
    {
      PickedAfterHead(tail, i, |rows| - 1);
      if i > 0 {
        assert rows[1..][i - 1] == rows[i];
      }
    }
  }

  /** The filtered table is the whole table with exactly the non-matching rows
      left out: its rows are those at the matching positions, in table order. */
  lemma RowsWhereInOrder(rows: seq<seq<Cell>>, col: nat, value: Cell)
    requires forall i :: 0 <= i < |rows| ==> col < |rows[i]|
    ensures exists idx ::
      && Picks(RowsWhere(rows, col, value), rows, idx)
      && (forall i :: 0 <= i < |rows| ==> (i in idx <==> SameValue(rows[i][col], value)))
  {
    var idx := RowsWhereIndices(rows, col, value);
  }

  /** The row has `value` in column `col`. */
  predicate HasValue(r: seq<Cell>, col: nat, value: Cell)
  {
    col < |r| && SameValue(r[col], value)
  }

  /** Every copy of a matching row is kept, and no copy of any other. */
  lemma {:induction false} RowsWhereMultiplicity(rows: seq<seq<Cell>>, col: nat, value: Cell, r: seq<Cell>)
    requires forall i :: 0 <= i < |rows| ==> col < |rows[i]|
    ensures multiset(RowsWhere(rows, col, value))[r] == if HasValue(r, col, value) then multiset(rows)[r] else 0
  {
    if rows != [] {
      var head, tail := rows[0], rows[1..];
      var rest := RowsWhere(tail, col, value);
      RowsWhereMultiplicity(tail, col, value, r);
      assert rows == [head] + tail;
      assert multiset(rows)[r] == multiset([head])[r] + multiset(tail)[r];
      if HasValue(head, col, value) {
        assert RowsWhere(rows, col, value) == [head] + rest;
        assert multiset(RowsWhere(rows, col, value))[r] == multiset([head])[r] + multiset(rest)[r];
      } else {
        assert RowsWhere(rows, col, value) == rest;
        assert HasValue(r, col, value) ==> multiset([head])[r] == 0;
      }
    }
  }

  /** The number of rows whose cell in `col` equals `value`. */
  function CountWhere(rows: seq<seq<Cell>>, col: nat, value: Cell): nat
    requires forall i :: 0 <= i < |rows| ==> col < |rows[i]|
  {
    |set i | 0 <= i < |rows| && SameValue(rows[i][col], value)|
  }

  /** `len(df[df[col] == value])` counts the matching rows. */
  lemma RowsWhereCount(rows: seq<seq<Cell>>, col: nat, value: Cell)
    requires forall i :: 0 <= i < |rows| ==> col < |rows[i]|
    ensures |RowsWhere(rows, col, value)| == CountWhere(rows, col, value)
  {
    var idx := RowsWhereIndices(rows, col, value);
    PositionsCount(idx);
    assert (set j | j in idx) == set i | 0 <= i < |rows| && SameValue(rows[i][col], value);
  }

  /** Choosing a category that some row has shows at least that row; choosing
      NaN shows nothing, since NaN equals nothing. */
  lemma {:induction false} RowsWhereChoice(rows: seq<seq<Cell>>, col: nat, value: Cell)
    requires forall i :: 0 <= i < |rows| ==> col < |rows[i]|
    ensures value.Missing? ==> RowsWhere(rows, col, value) == []
    ensures !value.Missing? && value in Column(rows, col) ==> |RowsWhere(rows, col, value)| >= 1
  {
    if rows != [] {
      RowsWhereChoice(rows[1..], col, value);
      if !value.Missing? && value in Column(rows, col) && rows[0][col] != value {
        assert value in Column(rows[1..], col);
      }
    }
  }

  /** The quick review counts of a table. */
  datatype Stats = Stats(total: nat, highRisk: nat, urgent: nat)

  /** "Total Pending", "High Risk Flags" and "Urgent Requests": the number of
      rows, of rows whose Fraud_Risk is "High" and of rows whose Urgency is
      "High". */
  function ReviewStats(rows: seq<seq<Cell>>): (s: Stats)
    requires forall i :: 0 <= i < |rows| ==> |rows[i]| == |AppColumns|
    ensures s.total == |rows|
    ensures s.highRisk == CountWhere(rows, FraudRiskColumn, Text("High")) <= s.total
    ensures s.urgent == CountWhere(rows, UrgencyColumn, Text("High")) <= s.total
  {
    RowsWhereCount(rows, FraudRiskColumn, Text("High"));
    RowsWhereCount(rows, UrgencyColumn, Text("High"));
    Stats(|rows|, |RowsWhere(rows, FraudRiskColumn, Text("High"))|, |RowsWhere(rows, UrgencyColumn, Text("High"))|)
  }

  /** The app's own claims file: its header, then rows of its width. */
  predicate AppFile(lines: seq<Line>)
  {
    WellFormed(lines) && lines[0] == Header(AppColumns)
    && forall i :: 1 <= i < |lines| ==> |lines[i].cells| == |AppColumns|
  }

  /** Saving a record of the app's width keeps the app's layout. */
  lemma SaveKeepsAppFile(file: Option<seq<Line>>, cells: seq<Cell>)
    requires file.Some? ==> AppFile(file.value)
    requires |cells| == |AppColumns|
    ensures AppFile(Save(file, AppColumns, cells))
  {
    SaveAppendsOneRow(file, AppColumns, cells);
    var lines := Save(file, AppColumns, cells);
    forall i | 1 <= i < |lines|
      ensures |lines[i].cells| == |AppColumns|
    {
      if i < |lines| - 1 {
        assert lines[i] == file.value[i];
      }
    }
  }

  class ClaimsApp {
    /** The persisted model, `None` when none loads. */
    var brain: Option<Brain>
    /** The claims CSV; `None` while the file does not exist. */
    var claimsFile: Option<seq<Line>>
    /** The success, warning, error and info notices shown, oldest first. */
    var messages: seq<string>

    predicate Valid()
      reads this
    {
      claimsFile.Some? ==> AppFile(claimsFile.value)
    }

    constructor (b: Option<Brain>, file: Option<seq<Line>>)
      requires file.Some? ==> AppFile(file.value)
      ensures Valid()
      ensures brain == b && claimsFile == file && messages == []
    {
      brain := b;
      claimsFile := file;
      messages := [];
    }

    /** The train button: a failure shows "Training Failed: ..." and keeps the
        old model; a success saves the new model and reports how many records
        it was trained on and when. Without the numeric columns a warning that
        fraud detection is disabled comes first. */
    method Train(frame: Frame, now: string, nlp: string -> string, detector: Detector) returns (r: Result<Brain, string>)
      modifies this
      ensures r == TrainSystem(frame, now, nlp, detector)
      ensures r.Err? ==> brain == old(brain) && messages == old(messages) + ["Training Failed: " + r.error]
      ensures r.Ok? ==> brain == Some(r.value)
      ensures r.Ok? && r.value.fraud.None? ==>
        messages == old(messages) + [FraudDisabledWarning, TrainedMessage(frame.rowCount, now)]
      ensures r.Ok? && r.value.fraud.Some? ==> messages == old(messages) + [TrainedMessage(frame.rowCount, now)]
      ensures claimsFile == old(claimsFile)
    {
      r := TrainSystem(frame, now, nlp, detector);
      match r {
        case Err(e) =>
          messages := messages + ["Training Failed: " + e];
        case Ok(b) =>
          if b.fraud.None? {
            messages := messages + [FraudDisabledWarning];
          }
          brain := Some(b);
          messages := messages + [TrainedMessage(b.meta.trainingCount, b.meta.timestamp)];
      }
    }

    /** The submission page after the form is sent: no model means no form
        and a maintenance error; an invalid form is rejected with a warning and
        nothing analysed or saved; otherwise the claim is analysed and saved as
        one row, a header first when the file is new, and the success message
        and the receipt's note are shown. */
    method SubmitForm(customerId: string, description: string, amount: real, tenure: int, now: string)
      returns (outcome: SubmitOutcome)
      requires Valid()
      modifies this
      ensures Valid() && brain == old(brain)
      ensures old(brain).None? ==> outcome == Unavailable && messages == old(messages) + [MaintenanceError]
      ensures old(brain).Some? && !ValidSubmission(description, amount) ==>
        outcome == Rejected(InvalidWarning) && messages == old(messages) + [InvalidWarning]
      ensures !outcome.Submitted? ==> claimsFile == old(claimsFile)
      ensures outcome.Submitted? <==> old(brain).Some? && ValidSubmission(description, amount)
      ensures outcome.Submitted? ==>
        var risk := FraudRisk(old(brain).value.fraud, amount, tenure).0;
        var cells := SubmissionCells(old(brain).value, customerId, description, amount, tenure, now);
        && claimsFile == Some(Save(old(claimsFile), AppColumns, cells))
        && outcome.category == old(brain).value.nlp(description)
        && (outcome.needsVerification <==> risk == "High")
        && messages == old(messages) + [SubmittedMessage, ReceiptNote(risk)]
    {
      if brain.None? {
        messages := messages + [MaintenanceError];
        return Unavailable;
      }
      if !ValidSubmission(description, amount) {
        messages := messages + [InvalidWarning];
        return Rejected(InvalidWarning);
      }
      var b := brain.value;
      var cells := SubmissionCells(b, customerId, description, amount, tenure, now);
      SaveKeepsAppFile(claimsFile, cells);
      claimsFile := Some(Save(claimsFile, AppColumns, cells));
      var risk := FraudRisk(b.fraud, amount, tenure).0;
      messages := messages + [SubmittedMessage, ReceiptNote(risk)];
      outcome := Submitted(b.nlp(description), risk == "High");
    }

    /** The filter's choices: "All", then each category once. */
    function CategoryOptions(): (options: seq<Cell>)
      requires Valid() && claimsFile.Some?
      reads this
      ensures |options| >= 1 && options[0] == Text("All")
      ensures forall c :: c in options[1..] <==> c in Column(Rows(claimsFile.value), CategoryColumn)
      ensures forall i, j :: 1 <= i < j < |options| ==> options[i] != options[j]
    {
      var rows := Rows(claimsFile.value);
      [Text("All")] + Unique(Column(rows, CategoryColumn))
    }

    /** The table under a choice: everything for "All", else the rows whose
        category equals the choice, every copy of them, in file order. */
    function Shown(choice: Cell): (rows: seq<seq<Cell>>)
      requires Valid() && claimsFile.Some?
      reads this
      ensures choice == Text("All") ==> rows == Rows(claimsFile.value)
      ensures choice != Text("All") ==>
        exists idx ::
          && Picks(rows, Rows(claimsFile.value), idx)
          && (forall i :: 0 <= i < |Rows(claimsFile.value)| ==>
                (i in idx <==> SameValue(Rows(claimsFile.value)[i][CategoryColumn], choice)))
      ensures forall i :: 0 <= i < |rows| ==> |rows[i]| == |AppColumns|
    {
      var all := Rows(claimsFile.value);
      if choice == Text("All") then all
      else
        RowsWhereInOrder(all, CategoryColumn, choice);
        RowsWhere(all, CategoryColumn, choice)
    }

    /** The three counts, taken on the filtered table. */
    function ShownStats(choice: Cell): (s: Stats)
      requires Valid() && claimsFile.Some?
      reads this
      ensures s.total == |Shown(choice)|
      ensures s.highRisk == CountWhere(Shown(choice), FraudRiskColumn, Text("High"))
      ensures s.urgent == CountWhere(Shown(choice), UrgencyColumn, Text("High"))
    {
      ReviewStats(Shown(choice))
    }
  }

  const FraudDisabledWarning := "⚠️ 'Amount' or 'Customer_Tenure' columns missing. Fraud detection disabled."

  /** The success message after training on `count` records at `timestamp`. */
  function TrainedMessage(count: nat, timestamp: string): string
  {
    "Model successfully trained on " + DecimalText(count) + " records at " + timestamp
  }
}
